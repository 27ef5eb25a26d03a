/** Flattening the two layers into one picture, as getThumbnail and
    exportImage do: a blank canvas, the background drawn on it, then the
    foreground, scaled by nearest neighbour (smoothing off) for export. */
module Compose {
  import opened Js
  import opened Pixels

  /** A picture as rows of pixels. */
  predicate IsRaster(img: seq<seq<Rgba>>, width: nat, height: nat) {
    |img| == height && forall y | 0 <= y < height :: |img[y]| == width
  }

  /** drawImage of a top cell over a bottom cell (source-over), for a top cell
      that is opaque or the transparent black clearRect leaves. */
  function Over(bottom: Rgba, top: Rgba): (c: Rgba)
    requires top.a == 255 || top == Transparent
    ensures top.a == 255 ==> c == top
    ensures top == Transparent ==> c == bottom
  {
    if top.a == 0 then bottom else top
  }

  /** The layers drawn one after the other on a blank width x height canvas:
      background first, foreground on top. */
  function Flatten(background: seq<Byte>, foreground: seq<Byte>, width: nat, height: nat): (img: seq<seq<Rgba>>)
    requires |background| == ByteLength(width, height) && |foreground| == ByteLength(width, height)
    requires OpaqueOrClear(foreground, width, height)
    ensures IsRaster(img, width, height)
  {
    seq(height, y requires 0 <= y < height =>
      seq(width, x requires 0 <= x < width =>
        assert CellOk(foreground, width, height, Point(x, y));
        Over(At(background, width, height, Point(x, y)), At(foreground, width, height, Point(x, y)))))
  }

  /** Where the foreground has paint the picture shows it; where the
      foreground is clear the background shows through. */
  lemma FlattenShows(background: seq<Byte>, foreground: seq<Byte>, width: nat, height: nat, p: Point)
    requires |background| == ByteLength(width, height) && |foreground| == ByteLength(width, height)
    requires OpaqueOrClear(foreground, width, height) && InGrid(width, height, p)
    ensures var img := Flatten(background, foreground, width, height);
      img[p.y][p.x] == if At(foreground, width, height, p).a == 255
        then At(foreground, width, height, p) else At(background, width, height, p)
  {
    assert CellOk(foreground, width, height, p);
  }

  /** A row or column index of the scaled picture falls in the original grid
      after division by the scale. */
  lemma ScaledIndex(i: int, n: nat, scale: nat)
    requires 0 <= i < n * scale
    ensures scale > 0 && 0 <= i / scale < n
  {
    if scale == 0 {
      assert false;
    }
    var q := i / scale;
    assert q * scale <= i;
    if q >= n {
      MulMonotone(n, q, scale);
      assert false;
    }
  }

  /** getThumbnail: the layers drawn at their natural size. */
  function Thumbnail(background: seq<Byte>, foreground: seq<Byte>, width: nat, height: nat): (img: seq<seq<Rgba>>)
    requires |background| == ByteLength(width, height) && |foreground| == ByteLength(width, height)
    requires OpaqueOrClear(foreground, width, height)
    ensures IsRaster(img, width, height)
  {
    Flatten(background, foreground, width, height)
  }

  /** exportImage(scale): a (width*scale) x (height*scale) canvas with
      smoothing disabled, both layers stretched over it, so each pixel
      repeats the cell it falls in. */
  function ExportImage(background: seq<Byte>, foreground: seq<Byte>, width: nat, height: nat, scale: nat): (img: seq<seq<Rgba>>)
    requires |background| == ByteLength(width, height) && |foreground| == ByteLength(width, height)
    requires OpaqueOrClear(foreground, width, height)
    ensures IsRaster(img, width * scale, height * scale)
  {
    var flat := Flatten(background, foreground, width, height);
    seq(height * scale, row requires 0 <= row < height * scale =>
      ScaledIndex(row, height, scale);
      seq(width * scale, col requires 0 <= col < width * scale =>
        ScaledIndex(col, width, scale);
        flat[row / scale][col / scale]))
  }

  lemma BlockIndex(y: nat, i: nat, scale: nat)
    requires i < scale
    ensures (y * scale + i) / scale == y
  {
    var a := y * scale + i;
    var q, r := a / scale, a % scale;
    assert a == q * scale + r && 0 <= r < scale;
    if q > y {
      MulMonotone(y + 1, q, scale);
      assert false;
    } else if q < y {
      MulMonotone(q + 1, y, scale);
      assert false;
    }
  }

  /** Each cell of the flattened layers becomes a uniform scale x scale block
      of the exported picture. */
  lemma ExportBlocks(background: seq<Byte>, foreground: seq<Byte>, width: nat, height: nat, scale: nat, p: Point, i: nat, j: nat)
    requires |background| == ByteLength(width, height) && |foreground| == ByteLength(width, height)
    requires OpaqueOrClear(foreground, width, height) && InGrid(width, height, p) && i < scale && j < scale
    ensures p.y * scale + i < height * scale && p.x * scale + j < width * scale
    ensures ExportImage(background, foreground, width, height, scale)[p.y * scale + i][p.x * scale + j]
         == Flatten(background, foreground, width, height)[p.y][p.x]
  {
    MulMonotone(p.y + 1, height, scale);
    MulMonotone(p.x + 1, width, scale);
    BlockIndex(p.y, i, scale);
    BlockIndex(p.x, j, scale);
  }

  /** The thumbnail is the export at scale 1. */
  lemma ThumbnailIsUnscaledExport(background: seq<Byte>, foreground: seq<Byte>, width: nat, height: nat)
    requires |background| == ByteLength(width, height) && |foreground| == ByteLength(width, height)
    requires OpaqueOrClear(foreground, width, height)
    ensures Thumbnail(background, foreground, width, height) == ExportImage(background, foreground, width, height, 1)
  {
    var t, e := Thumbnail(background, foreground, width, height), ExportImage(background, foreground, width, height, 1);
    assert |t| == |e|;
    forall y | 0 <= y < height ensures t[y] == e[y] {
      assert |t[y]| == |e[y]|;
    }
  }
}
