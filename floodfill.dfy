/** The drawing hook (useCanvasDrawing.js): the worklist flood fill over a
    flat RGBA buffer and the dispatch of one pointer action to draw, erase or
    fill on the active layer. */
module FloodFill {
  import opened Js
  import opened Pixels
  import opened Raster

  /** The tool names the editor passes; Other stands for any other string. */
  datatype Tool = Draw | Erase | Fill | Other
  datatype LayerName = Background | Foreground

  /** A 4-connected walk through cells of the target colour. */
  ghost predicate IsPath(data: seq<Byte>, width: nat, height: nat, target: Rgba, path: seq<Point>)
    requires |data| == ByteLength(width, height)
  {
    && |path| > 0
    && (forall k | 0 <= k < |path| :: InGrid(width, height, path[k]) && At(data, width, height, path[k]) == target)
    && (forall k | 0 <= k < |path| - 1 :: Adjacent(path[k], path[k + 1]))
  }

  /** p lies in the 4-connected component of seed-coloured cells that holds the seed. */
  ghost predicate InRegion(data: seq<Byte>, width: nat, height: nat, seed: Point, p: Point)
    requires |data| == ByteLength(width, height) && InGrid(width, height, seed)
  {
    exists path :: IsPath(data, width, height, At(data, width, height, seed), path) && path[0] == seed && path[|path| - 1] == p
  }

  /** `after` is `before` with the seed's region recoloured to `fill`, or
      `before` itself when the seed already has the fill colour. */
  ghost predicate Filled(before: seq<Byte>, after: seq<Byte>, width: nat, height: nat, seed: Point, fill: Rgba)
    requires |before| == ByteLength(width, height) && InGrid(width, height, seed)
  {
    && |after| == |before|
    && (At(before, width, height, seed) == fill ==> after == before)
    && forall p {:trigger FilledAt(before, after, width, height, seed, fill, p)} | InGrid(width, height, p) ::
         FilledAt(before, after, width, height, seed, fill, p)
  }

  /** Cell p after the fill: the fill colour inside the seed's region when
      the fill runs, its old colour everywhere else. */
  ghost predicate FilledAt(before: seq<Byte>, after: seq<Byte>, width: nat, height: nat, seed: Point, fill: Rgba, p: Point)
    requires |before| == ByteLength(width, height) && |after| == |before| && InGrid(width, height, seed) && InGrid(width, height, p)
  {
    At(after, width, height, p)
    == if At(before, width, height, seed) != fill && InRegion(before, width, height, seed, p)
       then fill else At(before, width, height, p)
  }

  /** The cells of the grid that show colour c. */
  ghost function CellsOfColor(data: seq<Byte>, width: nat, height: nat, c: Rgba): set<Point>
    requires |data| == ByteLength(width, height)
  {
    set x, y | 0 <= x < width && 0 <= y < height && At(data, width, height, Point(x, y)) == c :: Point(x, y)
  }

  lemma RegionHasSeed(data: seq<Byte>, width: nat, height: nat, seed: Point)
    requires |data| == ByteLength(width, height) && InGrid(width, height, seed)
    ensures InRegion(data, width, height, seed, seed)
  {
    assert IsPath(data, width, height, At(data, width, height, seed), [seed]);
  }

  /** A target-coloured neighbour of a region cell is in the region. */
  lemma RegionGrows(data: seq<Byte>, width: nat, height: nat, seed: Point, p: Point, q: Point)
    requires |data| == ByteLength(width, height) && InGrid(width, height, seed)
    requires InRegion(data, width, height, seed, p) && Adjacent(p, q) && InGrid(width, height, q)
    requires At(data, width, height, q) == At(data, width, height, seed)
    ensures InRegion(data, width, height, seed, q)
  {
    var target := At(data, width, height, seed);
    var path :| IsPath(data, width, height, target, path) && path[0] == seed && path[|path| - 1] == p;
    var longer := path + [q];
    assert IsPath(data, width, height, target, longer);
  }

  /** A set that holds the seed and every target-coloured neighbour of its
      members holds the whole region. */
  lemma {:induction false} ClosedSetHoldsRegion(data: seq<Byte>, width: nat, height: nat, seed: Point, painted: set<Point>, p: Point)
    requires |data| == ByteLength(width, height) && InGrid(width, height, seed) && seed in painted
    requires forall a, b | a in painted && Adjacent(a, b) && InGrid(width, height, b) && At(data, width, height, b) == At(data, width, height, seed) :: b in painted
    requires InRegion(data, width, height, seed, p)
    ensures p in painted
  {
    var target := At(data, width, height, seed);
    var path :| IsPath(data, width, height, target, path) && path[0] == seed && path[|path| - 1] == p;
    var k := 0;
    while k < |path| - 1
      invariant 0 <= k < |path| && path[k] in painted
    {
      assert Adjacent(path[k], path[k + 1]) && InGrid(width, height, path[k + 1]);
      k := k + 1;
    }
  }

  /** The cells floodFill pushes after painting p, in its order: left, right,
      up, down, each only when it lies inside the grid. */
  function Neighbours(width: nat, height: nat, p: Point): (r: seq<Point>)
    requires InGrid(width, height, p)
    ensures forall k | 0 <= k < |r| :: InGrid(width, height, r[k]) && Adjacent(p, r[k])
    ensures forall q | InGrid(width, height, q) && Adjacent(p, q) :: q in r
  {
    (if p.x > 0 then [Point(p.x - 1, p.y)] else [])
    + (if p.x < width - 1 then [Point(p.x + 1, p.y)] else [])
    + (if p.y > 0 then [Point(p.x, p.y - 1)] else [])
    + (if p.y < height - 1 then [Point(p.x, p.y + 1)] else [])
  }

  /** The state of a fill in progress: `cur` is the original `s0` with exactly
      the cells of `painted` recoloured; every painted cell belongs to the
      seed's region; every queued cell is the seed or a neighbour of a painted
      cell (its `parents` entry); and every region-coloured neighbour of a
      painted cell is painted or still queued. */
  ghost predicate FillInvariant(s0: seq<Byte>, cur: seq<Byte>, width: nat, height: nat, seed: Point, fill: Rgba,
                                work: seq<Point>, parents: seq<Point>, painted: set<Point>)
    requires |s0| == ByteLength(width, height) && |cur| == |s0| && InGrid(width, height, seed)
  {
    var target := At(s0, width, height, seed);
    && |parents| == |work|
    && (forall k | 0 <= k < |work| ::
          InGrid(width, height, work[k]) && (work[k] == seed || (parents[k] in painted && Adjacent(parents[k], work[k]))))
    && (forall p | p in painted ::
          InGrid(width, height, p) && At(s0, width, height, p) == target && InRegion(s0, width, height, seed, p))
    && (forall p | InGrid(width, height, p) ::
          At(cur, width, height, p) == if p in painted then fill else At(s0, width, height, p))
    && (seed in painted || seed in work)
    && (forall a, b | a in painted && Adjacent(a, b) && InGrid(width, height, b) && At(s0, width, height, b) == target ::
          b in painted || b in work)
  }

  lemma FillStarts(s0: seq<Byte>, width: nat, height: nat, seed: Point, fill: Rgba)
    requires |s0| == ByteLength(width, height) && InGrid(width, height, seed)
    ensures FillInvariant(s0, s0, width, height, seed, fill, [seed], [seed], {})
  {
  }

  /** Popping a cell that does not show the target colour changes nothing else. */
  lemma SkipStep(s0: seq<Byte>, cur: seq<Byte>, width: nat, height: nat, seed: Point, fill: Rgba,
                 work: seq<Point>, parents: seq<Point>, painted: set<Point>)
    requires |s0| == ByteLength(width, height) && |cur| == |s0| && InGrid(width, height, seed)
    requires FillInvariant(s0, cur, width, height, seed, fill, work, parents, painted) && |work| > 0
    requires At(cur, width, height, work[|work| - 1]) != At(s0, width, height, seed)
    ensures FillInvariant(s0, cur, width, height, seed, fill, work[..|work| - 1], parents[..|parents| - 1], painted)
  {
    var p, rest := work[|work| - 1], work[..|work| - 1];
    assert work == rest + [p];
  }

  /** Painting a fresh region cell p: it is in the region, and the buffer then
      shows `fill` exactly on painted + {p}. */
  lemma PaintCell(s0: seq<Byte>, cur: seq<Byte>, width: nat, height: nat, seed: Point, fill: Rgba,
                  work: seq<Point>, parents: seq<Point>, painted: set<Point>)
    requires |s0| == ByteLength(width, height) && |cur| == |s0| && InGrid(width, height, seed)
    requires FillInvariant(s0, cur, width, height, seed, fill, work, parents, painted) && |work| > 0
    requires fill != At(s0, width, height, seed)
    requires At(cur, width, height, work[|work| - 1]) == At(s0, width, height, seed)
    ensures var p := work[|work| - 1];
      && InGrid(width, height, p) && p !in painted
      && At(s0, width, height, p) == At(s0, width, height, seed) && InRegion(s0, width, height, seed, p)
      && p in CellsOfColor(s0, width, height, At(s0, width, height, seed))
      && forall q | InGrid(width, height, q) ::
           At(SetCell(cur, width, height, p, fill), width, height, q)
           == if q in painted + {p} then fill else At(s0, width, height, q)
  {
    var p := work[|work| - 1];
    if p == seed {
      RegionHasSeed(s0, width, height, seed);
    } else {
      RegionGrows(s0, width, height, seed, parents[|parents| - 1], p);
    }
    assert p == Point(p.x, p.y);
    forall q | InGrid(width, height, q) {
      SetCellAt(cur, width, height, p, fill, q);
    }
  }

  /** After painting p and queueing its neighbours every queued cell is the
      seed or a neighbour of a painted cell, and no region-coloured neighbour
      of a painted cell is lost. */
  lemma PaintQueue(s0: seq<Byte>, width: nat, height: nat, seed: Point,
                   work: seq<Point>, parents: seq<Point>, painted: set<Point>)
    requires |s0| == ByteLength(width, height) && InGrid(width, height, seed)
    requires |work| > 0 && |parents| == |work| && InGrid(width, height, work[|work| - 1])
    requires forall k | 0 <= k < |work| ::
      InGrid(width, height, work[k]) && (work[k] == seed || (parents[k] in painted && Adjacent(parents[k], work[k])))
    requires forall a, b | a in painted && Adjacent(a, b) && InGrid(width, height, b) && At(s0, width, height, b) == At(s0, width, height, seed) ::
      b in painted || b in work
    requires seed in painted || seed in work
    ensures var p := work[|work| - 1];
      var nb := Neighbours(width, height, p);
      var work', parents' := work[..|work| - 1] + nb, parents[..|parents| - 1] + seq(|nb|, _ => p);
      && |parents'| == |work'|
      && (forall k | 0 <= k < |work'| ::
            InGrid(width, height, work'[k]) && (work'[k] == seed || (parents'[k] in painted + {p} && Adjacent(parents'[k], work'[k]))))
      && (forall a, b | a in painted + {p} && Adjacent(a, b) && InGrid(width, height, b) && At(s0, width, height, b) == At(s0, width, height, seed) ::
            b in painted + {p} || b in work')
      && (seed in painted + {p} || seed in work')
  {
    var p, rest := work[|work| - 1], work[..|work| - 1];
    assert work == rest + [p];
    var nb := Neighbours(width, height, p);
    var work', parents' := rest + nb, parents[..|parents| - 1] + seq(|nb|, _ => p);
    forall k | 0 <= k < |work'|
      ensures InGrid(width, height, work'[k])
      ensures work'[k] == seed || (parents'[k] in painted + {p} && Adjacent(parents'[k], work'[k]))
    {
      if k >= |rest| {
        assert work'[k] == nb[k - |rest|] && parents'[k] == p;
      } else {
        assert work'[k] == work[k] && parents'[k] == parents[k];
      }
    }
    forall a, b | a in painted + {p} && Adjacent(a, b) && InGrid(width, height, b) && At(s0, width, height, b) == At(s0, width, height, seed)
      ensures b in painted + {p} || b in work'
    {
      if a == p {
        assert b in nb;
      }
    }
  }

  /** Popping a cell that shows the target colour: it is a fresh cell of the
      region, and painting it and queueing its neighbours keeps the invariant. */
  lemma PaintStep(s0: seq<Byte>, cur: seq<Byte>, width: nat, height: nat, seed: Point, fill: Rgba,
                  work: seq<Point>, parents: seq<Point>, painted: set<Point>)
    requires |s0| == ByteLength(width, height) && |cur| == |s0| && InGrid(width, height, seed)
    requires FillInvariant(s0, cur, width, height, seed, fill, work, parents, painted) && |work| > 0
    requires fill != At(s0, width, height, seed)
    requires At(cur, width, height, work[|work| - 1]) == At(s0, width, height, seed)
    ensures var p := work[|work| - 1];
      && InGrid(width, height, p) && p !in painted && p in CellsOfColor(s0, width, height, At(s0, width, height, seed))
      && var nb := Neighbours(width, height, p);
         FillInvariant(s0, SetCell(cur, width, height, p, fill), width, height, seed, fill,
                       work[..|work| - 1] + nb, parents[..|parents| - 1] + seq(|nb|, _ => p), painted + {p})
  {
    var p := work[|work| - 1];
    var nb := Neighbours(width, height, p);
    PaintCell(s0, cur, width, height, seed, fill, work, parents, painted);
    PaintQueue(s0, width, height, seed, work, parents, painted);
    var cur', work', parents' := SetCell(cur, width, height, p, fill), work[..|work| - 1] + nb, parents[..|parents| - 1] + seq(|nb|, _ => p);
    assert forall q | q in painted + {p} ::
      InGrid(width, height, q) && At(s0, width, height, q) == At(s0, width, height, seed) && InRegion(s0, width, height, seed, q);
    assert FillInvariant(s0, cur', width, height, seed, fill, work', parents', painted + {p});
  }

  /** With the worklist empty the painted cells are exactly the region. */
  lemma FillDone(s0: seq<Byte>, cur: seq<Byte>, width: nat, height: nat, seed: Point, fill: Rgba,
                 parents: seq<Point>, painted: set<Point>)
    requires |s0| == ByteLength(width, height) && |cur| == |s0| && InGrid(width, height, seed)
    requires FillInvariant(s0, cur, width, height, seed, fill, [], parents, painted)
    requires fill != At(s0, width, height, seed)
    ensures Filled(s0, cur, width, height, seed, fill)
  {
    forall p | InRegion(s0, width, height, seed, p) ensures p in painted {
      ClosedSetHoldsRegion(s0, width, height, seed, painted, p);
    }
    forall p | InGrid(width, height, p) ensures FilledAt(s0, cur, width, height, seed, fill, p) {
    }
  }

  /** floodFill on the ImageData copy `img`: the seed's colour is the target;
      when the fill colour's bytes already equal it nothing is written;
      otherwise cells are popped from a worklist, and a popped cell that still
      shows the target colour is painted and its in-grid neighbours pushed.
      `changed` reports whether the image is written back and onCanvasChange fires. */
  method FloodFill(img: array<Byte>, width: nat, height: nat, startX: int, startY: int, fillColor: string)
    returns (changed: bool)
    requires img.Length == ByteLength(width, height) && InGrid(width, height, Point(startX, startY))
    modifies img
    ensures changed <==> At(old(img[..]), width, height, Point(startX, startY)) != FillRgba(fillColor)
    ensures Filled(old(img[..]), img[..], width, height, Point(startX, startY), FillRgba(fillColor))
    ensures !changed ==> img[..] == old(img[..])
  {
    var seed := Point(startX, startY);
    var targetColor := At(img[..], width, height, seed);
    var fillRGBA := FillRgba(fillColor);
    if ColorsMatch(Lift(targetColor), Lift(fillRGBA)) {
      return false;
    }
    FillRegion(img, width, height, seed, targetColor, fillRGBA);
    changed := true;
  }

  /** The worklist loop of floodFill, started from the seed alone. */
  method FillRegion(img: array<Byte>, width: nat, height: nat, seed: Point, targetColor: Rgba, fillRGBA: Rgba)
    requires img.Length == ByteLength(width, height) && InGrid(width, height, seed)
    requires targetColor == At(img[..], width, height, seed) && targetColor != fillRGBA
    modifies img
    ensures Filled(old(img[..]), img[..], width, height, seed, fillRGBA)
  {
    ghost var s0 := img[..];
    var pixelsToCheck := [seed];
    ghost var parents := [seed];
    ghost var painted: set<Point> := {};
    FillStarts(s0, width, height, seed, fillRGBA);
    while |pixelsToCheck| > 0
      invariant img.Length == |s0|
      invariant FillInvariant(s0, img[..], width, height, seed, fillRGBA, pixelsToCheck, parents, painted)
      decreases CellsOfColor(s0, width, height, targetColor) - painted, |pixelsToCheck|
    {
      var p := pixelsToCheck[|pixelsToCheck| - 1];
      var currentColor := At(img[..], width, height, p);
      if ColorsMatch(Lift(currentColor), Lift(targetColor)) {
        PaintStep(s0, img[..], width, height, seed, fillRGBA, pixelsToCheck, parents, painted);
        WriteCell(img, width, height, p, fillRGBA);
        var pushed := Neighbours(width, height, p);
        pixelsToCheck := pixelsToCheck[..|pixelsToCheck| - 1] + pushed;
        parents := parents[..|parents| - 1] + seq(|pushed|, _ => p);
        painted := painted + {p};
      } else {
        SkipStep(s0, img[..], width, height, seed, fillRGBA, pixelsToCheck, parents, painted);
        pixelsToCheck := pixelsToCheck[..|pixelsToCheck| - 1];
        parents := parents[..|parents| - 1];
      }
    }
    FillDone(s0, img[..], width, height, seed, fillRGBA, parents, painted);
  }

  /** One pass of floodFill's loop body on the state (image, worklist). */
  datatype FillState = FillState(data: seq<Byte>, work: seq<Point>)

  ghost predicate FillStateOk(width: nat, height: nat, s: FillState) {
    |s.data| == ByteLength(width, height) && forall k | 0 <= k < |s.work| :: InGrid(width, height, s.work[k])
  }

  /** Pop the last cell; when it shows `target`, write `fill` there and push
      its in-grid neighbours. */
  function LoopStep(width: nat, height: nat, target: Rgba, fill: Rgba, s: FillState): (r: FillState)
    requires FillStateOk(width, height, s) && s.work != []
    ensures FillStateOk(width, height, r)
    ensures |r.data| == |s.data|
  {
    var p := s.work[|s.work| - 1];
    var rest := s.work[..|s.work| - 1];
    if ColorsMatch(Lift(At(s.data, width, height, p)), Lift(target)) then
      FillState(SetCell(s.data, width, height, p, fill), rest + Neighbours(width, height, p))
    else
      FillState(s.data, rest)
  }

  /** One pass of the loop as a total step: a state the loop would not run
      on is left as it is. */
  ghost function Pass(width: nat, height: nat, target: Rgba, fill: Rgba): FillState -> FillState {
    s => if FillStateOk(width, height, s) && s.work != [] then LoopStep(width, height, target, fill, s) else s
  }

  /** The state after n steps, or the first state whose worklist is empty. */
  function Iterate(step: FillState -> FillState, s: FillState, n: nat): FillState
    decreases n
  {
    if n == 0 || s.work == [] then s else Iterate(step, step(s), n - 1)
  }

  /** floodFill's early exit as written: it compares the pixel bytes with the
      numbers hexToRgba returns, before they are stored as bytes. */
  predicate AsWrittenEntersLoop(target: Rgba, fillColor: string) {
    !ColorsMatch(Lift(target), HexToRgba(fillColor))
  }

  /** The early exit as intended: compare with the bytes the fill writes. */
  predicate EntersLoop(target: Rgba, fillColor: string) {
    !ColorsMatch(Lift(target), Lift(FillRgba(fillColor)))
  }

  /** For well-formed '#RRGGBB' colours the two exits agree. */
  lemma EntersLoopAgrees(target: Rgba, fillColor: string)
    requires IsHexColor(fillColor)
    ensures AsWrittenEntersLoop(target, fillColor) <==> EntersLoop(target, fillColor)
  {
  }

  const Black := Rgba(0, 0, 0, 255)
  /** A 2 x 1 image, both cells opaque black. */
  const BlackPair: seq<Byte> := [0, 0, 0, 255, 0, 0, 0, 255]

  lemma ParseZeros()
    ensures ParseIntHex("00") == Int(0) && ParseIntHex("0") == Int(0) && ParseIntHex("") == NaN
  {
    assert HexValue("0") == 0 by { assert "0"[..0] == ""; }
    assert HexValue("00") == 0 by { assert "00"[..1] == "0"; }
    ParseIntHexDigits("0");
    ParseIntHexDigits("00");
    assert TrimStart("") == "";
    assert WithoutHexPrefix(Unsigned("")) == "";
    assert HexPrefixLength("") == 0;
  }

  /** parseInt yields 0, 0 and NaN for '#000', and the NaN is stored as 0. */
  lemma ShortBlack()
    ensures HexToRgba("#000") == NumRgba(Int(0), Int(0), NaN, Int(255))
    ensures FillRgba("#000") == Black
  {
    assert !IsHexColor("#000");
    assert Slice("#000", 1, 3) == "00" by { assert "#000"[1..3] == "00"; }
    assert Slice("#000", 3, 5) == "0";
    assert Slice("#000", 5, 7) == "";
    ParseZeros();
  }

  /** Filling a black region with '#000' as written: the early exit is
      skipped because the blue channel is NaN, every pass rewrites black over
      black, and the two cells push each other back forever, so the worklist
      never empties. The intended exit stops at once. */
  lemma AsWrittenFillNeverEnds(n: nat)
    ensures At(BlackPair, 2, 1, Point(0, 0)) == Black
    ensures AsWrittenEntersLoop(Black, "#000") && !EntersLoop(Black, "#000")
    ensures Iterate(Pass(2, 1, Black, FillRgba("#000")), FillState(BlackPair, [Point(0, 0)]), n).work != []
  {
    ShortBlack();
    BlackPairSteps();
    var a, b := FillState(BlackPair, [Point(0, 0)]), FillState(BlackPair, [Point(1, 0)]);
    var step := Pass(2, 1, Black, Black);
    assert step(a) == b && step(b) == a;
    TwoCellCycle(step, a, b, n);
  }

  /** Each cell of the black pair is black, rewriting it changes nothing, and
      its only neighbour is the other cell. */
  lemma BlackPairCells()
    ensures At(BlackPair, 2, 1, Point(0, 0)) == Black && At(BlackPair, 2, 1, Point(1, 0)) == Black
    ensures SetCell(BlackPair, 2, 1, Point(0, 0), Black) == BlackPair
    ensures SetCell(BlackPair, 2, 1, Point(1, 0), Black) == BlackPair
    ensures Neighbours(2, 1, Point(0, 0)) == [Point(1, 0)] && Neighbours(2, 1, Point(1, 0)) == [Point(0, 0)]
  {
    assert BlackPair[..0] + [0, 0, 0, 255] + BlackPair[4..] == BlackPair;
    assert BlackPair[..4] + [0, 0, 0, 255] + BlackPair[8..] == BlackPair;
  }

  /** One pass moves the worklist from one cell of the pair to the other. */
  lemma BlackPairSteps()
    ensures FillStateOk(2, 1, FillState(BlackPair, [Point(0, 0)])) && FillStateOk(2, 1, FillState(BlackPair, [Point(1, 0)]))
    ensures LoopStep(2, 1, Black, Black, FillState(BlackPair, [Point(0, 0)])) == FillState(BlackPair, [Point(1, 0)])
    ensures LoopStep(2, 1, Black, Black, FillState(BlackPair, [Point(1, 0)])) == FillState(BlackPair, [Point(0, 0)])
  {
    BlackPairCells();
  }

  /** Two states that step into each other alternate forever: every run
      from either one stops at one of the two. */
  lemma {:induction false} TwoCellCycle(step: FillState -> FillState, a: FillState, b: FillState, n: nat)
    requires a.work != [] && b.work != [] && step(a) == b && step(b) == a
    ensures var r := Iterate(step, a, n); r == a || r == b
    ensures var r := Iterate(step, b, n); r == a || r == b
  {
    if n > 0 {
      TwoCellCycle(step, a, b, n - 1);
    }
  }

  /** The canvas the hook draws on: the background layer when it is active,
      the foreground layer otherwise. */
  function ActiveCanvas(activeLayer: LayerName, background: Layer?, foreground: Layer?): (c: Layer?)
    ensures c == background || c == foreground
    ensures activeLayer == Background ==> c == background
    ensures activeLayer == Foreground ==> c == foreground
  {
    if activeLayer == Background then background else foreground
  }

  /** The layer canvas the hook leaves alone. */
  function InactiveCanvas(activeLayer: LayerName, background: Layer?, foreground: Layer?): Layer? {
    if activeLayer == Background then foreground else background
  }

  function Footprint(c: Layer?): set<object> {
    if c == null then {} else {c, c.data}
  }

  /** The layer canvases of one editor: each is a width x height bitmap and
      the two never share a buffer. */
  ghost predicate LayersOk(background: Layer?, foreground: Layer?, width: nat, height: nat)
    reads Footprint(background), Footprint(foreground)
  {
    && (background != null ==> background.Valid() && background.width == width && background.height == height)
    && (foreground != null ==> foreground.Valid() && foreground.width == width && foreground.height == height)
    && (background != null && foreground != null ==> background != foreground && background.data != foreground.data)
  }

  /** Recolouring a region with an opaque colour keeps every cell opaque or clear. */
  lemma FilledOpaqueOrClear(before: seq<Byte>, after: seq<Byte>, width: nat, height: nat, seed: Point, fill: Rgba)
    requires |before| == ByteLength(width, height) && InGrid(width, height, seed)
    requires Filled(before, after, width, height, seed, fill) && fill.a == 255 && OpaqueOrClear(before, width, height)
    ensures OpaqueOrClear(after, width, height)
  {
    forall q | InGrid(width, height, q) ensures CellOk(after, width, height, q) {
      assert CellOk(before, width, height, q) && FilledAt(before, after, width, height, seed, fill, q);
    }
  }

  /** What the tool does to one canvas at cell p, from bitmap `before` and
      fill style `beforeStyle` to `after` and `afterStyle`: a fill recolours
      the seed's region (a drag, forceDraw, is ignored by the fill tool), an
      erase clears the cell, a draw paints it with the selected colour, any
      other tool does nothing; `notified` says whether onCanvasChange fires. */
  ghost predicate ToolEffect(before: seq<Byte>, beforeStyle: Rgba, after: seq<Byte>, afterStyle: Rgba, width: nat, height: nat,
                             activeTool: Tool, selectedColor: string, p: Point, forceDraw: bool, notified: bool)
    requires |before| == ByteLength(width, height) && InGrid(width, height, p)
  {
    if activeTool == Fill && !forceDraw then
      && (notified <==> At(before, width, height, p) != FillRgba(selectedColor))
      && Filled(before, after, width, height, p, FillRgba(selectedColor))
      && afterStyle == beforeStyle
    else if activeTool == Erase then
      notified && after == SetCell(before, width, height, p, Transparent) && afterStyle == beforeStyle
    else if activeTool == Draw then
      && notified && afterStyle == StyleAfter(beforeStyle, selectedColor)
      && after == SetCell(before, width, height, p, afterStyle)
    else
      !notified && after == before && afterStyle == beforeStyle
  }

  /** What handleAction does to the active canvas: nothing while zooming or
      outside the grid, otherwise the tool's effect on cell (x, y). */
  ghost predicate ActionEffect(before: seq<Byte>, beforeStyle: Rgba, after: seq<Byte>, afterStyle: Rgba, width: nat, height: nat,
                               activeTool: Tool, selectedColor: string, x: int, y: int, forceDraw: bool, isZooming: bool, notified: bool)
    requires |before| == ByteLength(width, height)
  {
    if isZooming || !InGrid(width, height, Point(x, y)) then
      !notified && after == before && afterStyle == beforeStyle
    else
      ToolEffect(before, beforeStyle, after, afterStyle, width, height, activeTool, selectedColor, Point(x, y), forceDraw, notified)
  }

  /** floodFill on a canvas: the bitmap is read, filled from p with the
      guard of FloodFill, and written back (then onCanvasChange fires) only
      when the fill ran; `changed` says whether it did. */
  method FillCanvas(canvas: Layer, p: Point, fillColor: string) returns (changed: bool)
    requires canvas.Valid() && InGrid(canvas.width, canvas.height, p)
    modifies canvas.data
    ensures canvas.Valid()
    ensures changed <==> At(old(canvas.data[..]), canvas.width, canvas.height, p) != FillRgba(fillColor)
    ensures Filled(old(canvas.data[..]), canvas.data[..], canvas.width, canvas.height, p, FillRgba(fillColor))
  {
    var img := canvas.GetImageData();
    changed := FloodFill(img, canvas.width, canvas.height, p.x, p.y, fillColor);
    if !changed {
      return;
    }
    FilledOpaqueOrClear(old(canvas.data[..]), img[..], canvas.width, canvas.height, p, FillRgba(fillColor));
    canvas.PutPixels(img[..]);
  }

  /** The tool applied to cell p of one canvas, p inside the grid. */
  method ApplyTool(canvas: Layer, activeTool: Tool, selectedColor: string, p: Point, forceDraw: bool)
    returns (notified: bool)
    requires canvas.Valid() && InGrid(canvas.width, canvas.height, p)
    modifies canvas, canvas.data
    ensures canvas.Valid()
    ensures ToolEffect(old(canvas.data[..]), old(canvas.fillStyle), canvas.data[..], canvas.fillStyle,
                       canvas.width, canvas.height, activeTool, selectedColor, p, forceDraw, notified)
  {
    notified := false;
    if activeTool == Fill && !forceDraw {
      notified := FillCanvas(canvas, p, selectedColor);
    } else if activeTool == Erase {
      canvas.ClearCell(p.x, p.y);
      notified := true;
    } else if activeTool == Draw {
      canvas.SetFillStyle(selectedColor);
      canvas.FillCell(p.x, p.y);
      notified := true;
    }
  }

  /** handleAction for the grid cell (x, y) the pointer maps to: nothing
      while zooming or without a canvas; otherwise ActionEffect on the active
      layer, and the other layer is not touched. */
  method HandleAction(background: Layer?, foreground: Layer?, width: nat, height: nat, activeTool: Tool,
                      activeLayer: LayerName, selectedColor: string, x: int, y: int, forceDraw: bool, isZooming: bool)
    returns (notified: bool)
    requires LayersOk(background, foreground, width, height)
    modifies Footprint(ActiveCanvas(activeLayer, background, foreground))
    ensures LayersOk(background, foreground, width, height)
    ensures var other := InactiveCanvas(activeLayer, background, foreground);
      other != null ==> unchanged(other, other.data)
    ensures var canvas := ActiveCanvas(activeLayer, background, foreground);
      canvas == null ==> !notified
    ensures var canvas := ActiveCanvas(activeLayer, background, foreground);
      canvas != null ==>
        ActionEffect(old(canvas.data[..]), old(canvas.fillStyle), canvas.data[..], canvas.fillStyle,
                     width, height, activeTool, selectedColor, x, y, forceDraw, isZooming, notified)
  {
    notified := false;
    if isZooming {
      return;
    }
    var canvas := ActiveCanvas(activeLayer, background, foreground);
    if canvas == null {
      return;
    }
    notified := ActOn(canvas, width, height, activeTool, selectedColor, x, y, forceDraw);
  }

  /** handleAction past its zoom and canvas checks: the bounds gate, then the tool. */
  method ActOn(canvas: Layer, width: nat, height: nat, activeTool: Tool, selectedColor: string, x: int, y: int, forceDraw: bool)
    returns (notified: bool)
    requires canvas.Valid() && canvas.width == width && canvas.height == height
    modifies canvas, canvas.data
    ensures canvas.Valid()
    ensures ActionEffect(old(canvas.data[..]), old(canvas.fillStyle), canvas.data[..], canvas.fillStyle,
                         width, height, activeTool, selectedColor, x, y, forceDraw, false, notified)
  {
    notified := false;
    if 0 <= x < width && 0 <= y < height {
      notified := ApplyTool(canvas, activeTool, selectedColor, Point(x, y), forceDraw);
    }
  }
}
