/** The colour and indexing vocabulary of the editor (canvasUtils.js):
    colours, hex parsing, the flat RGBA layout of ImageData, colour
    comparison and the checkerboard backdrop rule. */
module Pixels {
  import opened Js

  /** A colour as stored in ImageData: four bytes. */
  datatype Rgba = Rgba(r: Byte, g: Byte, b: Byte, a: Byte)

  /** A colour as hexToRgba returns it: four JavaScript numbers. */
  datatype NumRgba = NumRgba(r: Num, g: Num, b: Num, a: Num)

  /** What clearRect leaves behind. */
  const Transparent := Rgba(0, 0, 0, 0)
  const CheckerLight := Rgba(0xff, 0xff, 0xff, 0xff)
  const CheckerDark := Rgba(0xef, 0xef, 0xef, 0xff)

  /** A grid cell, column x and row y. */
  datatype Point = Point(x: int, y: int)

  predicate InGrid(width: nat, height: nat, p: Point) {
    0 <= p.x < width && 0 <= p.y < height
  }

  /** 4-connectivity: the cells share an edge. */
  predicate Adjacent(p: Point, q: Point) {
    || (p.x == q.x && (p.y == q.y + 1 || q.y == p.y + 1))
    || (p.y == q.y && (p.x == q.x + 1 || q.x == p.x + 1))
  }

  /** A colour read out of ImageData, as the numbers getPixel returns. */
  function Lift(c: Rgba): NumRgba {
    NumRgba(Int(c.r), Int(c.g), Int(c.b), Int(c.a))
  }

  /** The bytes that storing the four numbers into ImageData leaves. */
  function ToBytes(c: NumRgba): Rgba {
    Rgba(ToUint8Clamp(c.r), ToUint8Clamp(c.g), ToUint8Clamp(c.b), ToUint8Clamp(c.a))
  }

  /** A well-formed colour string: '#' and six hex digits. */
  predicate IsHexColor(hex: string) {
    |hex| == 7 && hex[0] == '#' && AllHex(hex[1..])
  }

  /** The three digit pairs of a well-formed colour string. */
  lemma HexColorPairs(hex: string)
    requires IsHexColor(hex)
    ensures AllHex(hex[1..3]) && AllHex(hex[3..5]) && AllHex(hex[5..7])
  {
    forall i | 1 <= i < 7 ensures IsHexDigit(hex[i]) {
      assert hex[i] == hex[1..][i - 1];
    }
  }

  /** parseInt of the digit pair of a well-formed colour string at i..i+2. */
  lemma PairParse(hex: string, i: nat)
    requires IsHexColor(hex) && 1 <= i <= 5
    ensures AllHex(hex[i..i + 2]) && HexValue(hex[i..i + 2]) < 256
    ensures ParseIntHex(Slice(hex, i, i + 2)) == Int(HexValue(hex[i..i + 2]))
  {
    var pair := hex[i..i + 2];
    forall k | 0 <= k < 2 ensures IsHexDigit(pair[k]) {
      assert pair[k] == hex[1..][i + k - 1];
    }
    assert Slice(hex, i, i + 2) == pair;
    ParseIntHexDigits(pair);
    assert Pow16(2) == 256;
  }

  /** hexToRgba: channels from the digit pairs at 1..3, 3..5 and 5..7, alpha 255. */
  function HexToRgba(hex: string): (c: NumRgba)
    ensures c.a == Int(255)
    ensures IsHexColor(hex) ==>
      && c.r == Int(HexValue(hex[1..3])) && c.g == Int(HexValue(hex[3..5])) && c.b == Int(HexValue(hex[5..7]))
      && 0 <= c.r.v < 256 && 0 <= c.g.v < 256 && 0 <= c.b.v < 256
  {
    if IsHexColor(hex) then
      PairParse(hex, 1);
      PairParse(hex, 3);
      PairParse(hex, 5);
      NumRgba(ParseIntHex(Slice(hex, 1, 3)), ParseIntHex(Slice(hex, 3, 5)), ParseIntHex(Slice(hex, 5, 7)), Int(255))
    else
      NumRgba(ParseIntHex(Slice(hex, 1, 3)), ParseIntHex(Slice(hex, 3, 5)), ParseIntHex(Slice(hex, 5, 7)), Int(255))
  }

  /** The colour a fill with `hex` writes: hexToRgba's numbers stored as bytes.
      It is always opaque, and for '#RRGGBB' it is exactly the parsed colour. */
  function FillRgba(hex: string): (c: Rgba)
    ensures c.a == 255
    ensures IsHexColor(hex) ==> Lift(c) == HexToRgba(hex)
  {
    ToBytes(HexToRgba(hex))
  }

  /** colorsMatch: strict equality of the four channels, so a NaN channel
      never matches. */
  function ColorsMatch(c1: NumRgba, c2: NumRgba): (m: bool)
    ensures m <==> c1 == c2 && c1.r.Int? && c1.g.Int? && c1.b.Int? && c1.a.Int?
  {
    && c1.r.Int? && c2.r.Int? && c1.r.v == c2.r.v
    && c1.g.Int? && c2.g.Int? && c1.g.v == c2.g.v
    && c1.b.Int? && c2.b.Int? && c1.b.v == c2.b.v
    && c1.a.Int? && c2.a.Int? && c1.a.v == c2.a.v
  }

  /** On colours read from ImageData colorsMatch is plain equality, hence an
      equivalence relation; a colour with a NaN channel does not even match itself. */
  lemma ColorsMatchBytes(c1: Rgba, c2: Rgba, c3: Rgba, n: NumRgba)
    ensures ColorsMatch(Lift(c1), Lift(c2)) <==> c1 == c2
    ensures ColorsMatch(Lift(c1), Lift(c1))
    ensures ColorsMatch(Lift(c1), Lift(c2)) <==> ColorsMatch(Lift(c2), Lift(c1))
    ensures ColorsMatch(Lift(c1), Lift(c2)) && ColorsMatch(Lift(c2), Lift(c3)) ==> ColorsMatch(Lift(c1), Lift(c3))
    ensures n.r == NaN || n.g == NaN || n.b == NaN || n.a == NaN ==> !ColorsMatch(n, n)
  {
  }

  /** The length of ImageData.data for a width x height bitmap. */
  function ByteLength(width: nat, height: nat): nat {
    width * height * 4
  }

  lemma MulMonotone(a: int, b: int, c: nat)
    requires a <= b
    ensures a * c <= b * c
  {
    assert b * c - a * c == (b - a) * c;
  }

  /** The first byte of cell (x, y) in the row-major layout. */
  function Offset(width: nat, height: nat, p: Point): (i: nat)
    requires InGrid(width, height, p)
    ensures i == (p.y * width + p.x) * 4
    ensures i + 4 <= ByteLength(width, height)
  {
    MulMonotone(p.y + 1, height, width);
    (p.y * width + p.x) * 4
  }

  /** Distinct cells own disjoint groups of four bytes. */
  lemma OffsetDisjoint(width: nat, height: nat, p: Point, q: Point)
    requires InGrid(width, height, p) && InGrid(width, height, q) && p != q
    ensures Offset(width, height, p) + 4 <= Offset(width, height, q) || Offset(width, height, q) + 4 <= Offset(width, height, p)
  {
    var a, b := p.y * width + p.x, q.y * width + q.x;
    if p.y < q.y {
      RowBefore(width, p, q);
    } else if q.y < p.y {
      RowBefore(width, q, p);
    }
    assert a != b;
  }

  /** A cell in an earlier row has a smaller index. */
  lemma RowBefore(width: nat, p: Point, q: Point)
    requires 0 <= p.x < width && 0 <= q.x && 0 <= p.y < q.y
    ensures p.y * width + p.x < q.y * width + q.x
  {
    assert (p.y + 1) * width == p.y * width + width;
    MulMonotone(p.y + 1, q.y, width);
  }

  /** getPixel: the four consecutive entries starting at (y*width + x)*4. */
  function GetPixel(data: seq<Byte>, x: int, y: int, width: int): Rgba
    requires 0 <= (y * width + x) * 4 && (y * width + x) * 4 + 4 <= |data|
  {
    var i := (y * width + x) * 4;
    Rgba(data[i], data[i + 1], data[i + 2], data[i + 3])
  }

  /** getPixel never reads outside a width x height bitmap for a cell of the grid. */
  lemma GetPixelInBounds(data: seq<Byte>, width: nat, height: nat, x: int, y: int)
    requires |data| == ByteLength(width, height) && 0 <= x < width && 0 <= y < height
    ensures 0 <= (y * width + x) * 4 && (y * width + x) * 4 + 4 <= |data|
  {
    MulMonotone(y + 1, height, width);
  }

  /** The colour of cell p of a width x height bitmap. */
  function At(data: seq<Byte>, width: nat, height: nat, p: Point): Rgba
    requires |data| == ByteLength(width, height) && InGrid(width, height, p)
  {
    var _ := Offset(width, height, p);
    GetPixel(data, p.x, p.y, width)
  }

  /** The bitmap with cell p overwritten by colour c. */
  function SetCell(data: seq<Byte>, width: nat, height: nat, p: Point, c: Rgba): (r: seq<Byte>)
    requires |data| == ByteLength(width, height) && InGrid(width, height, p)
    ensures |r| == |data|
  {
    var i := Offset(width, height, p);
    data[..i] + [c.r, c.g, c.b, c.a] + data[i + 4..]
  }

  /** Reading a cell after SetCell: the new colour at p, the old one elsewhere. */
  lemma SetCellAt(data: seq<Byte>, width: nat, height: nat, p: Point, c: Rgba, q: Point)
    requires |data| == ByteLength(width, height) && InGrid(width, height, p) && InGrid(width, height, q)
    ensures At(SetCell(data, width, height, p, c), width, height, q) == if q == p then c else At(data, width, height, q)
  {
    var i, j := Offset(width, height, p), Offset(width, height, q);
    var t := SetCell(data, width, height, p, c);
    forall k | 0 <= k < |data|
      ensures t[k] == if i <= k < i + 4 then [c.r, c.g, c.b, c.a][k - i] else data[k]
    {
    }
    if q != p {
      OffsetDisjoint(width, height, p, q);
    }
  }

  /** Every cell is either fully opaque or the transparent black clearRect
      leaves; the canvas operations of the editor only ever produce such cells. */
  ghost predicate OpaqueOrClear(data: seq<Byte>, width: nat, height: nat)
    requires |data| == ByteLength(width, height)
  {
    forall p {:trigger CellOk(data, width, height, p)} | InGrid(width, height, p) :: CellOk(data, width, height, p)
  }

  /** Cell p is fully opaque or clear. */
  ghost predicate CellOk(data: seq<Byte>, width: nat, height: nat, p: Point)
    requires |data| == ByteLength(width, height) && InGrid(width, height, p)
  {
    At(data, width, height, p).a == 255 || At(data, width, height, p) == Transparent
  }

  /** Writing an opaque or transparent colour keeps every cell opaque or clear. */
  lemma SetCellOpaqueOrClear(data: seq<Byte>, width: nat, height: nat, p: Point, c: Rgba)
    requires |data| == ByteLength(width, height) && InGrid(width, height, p)
    requires OpaqueOrClear(data, width, height) && (c.a == 255 || c == Transparent)
    ensures OpaqueOrClear(SetCell(data, width, height, p, c), width, height)
  {
    forall q | InGrid(width, height, q) ensures CellOk(SetCell(data, width, height, p, c), width, height, q) {
      assert CellOk(data, width, height, q);
      SetCellAt(data, width, height, p, c, q);
    }
  }

  /** drawCheckerboard's rule: light where x + y is even, dark elsewhere. */
  function CheckerColor(x: int, y: int): (c: Rgba)
    ensures c.a == 255
  {
    if (x + y) % 2 == 0 then CheckerLight else CheckerDark
  }

  /** Horizontally or vertically adjacent backdrop cells always differ. */
  lemma CheckerAdjacentDiffer(p: Point, q: Point)
    requires Adjacent(p, q)
    ensures CheckerColor(p.x, p.y) != CheckerColor(q.x, q.y)
  {
  }
}
