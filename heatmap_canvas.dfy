/** The heatmap fill of VisualizationPanel's `drawVisualization`: each feature
    element becomes a block of RGBA pixels in a fresh `ImageData` buffer
    (nearest-neighbour upsampling of a `size x size` grid). */
module HeatmapCanvas {
  import opened Numeric
  import opened Heatmap
  import opened Wrappers

  /** The `DOMException` name `createImageData` throws for a zero width or height. */
  const IndexSizeError := "IndexSizeError"

  /** One heatmap draw: the flat feature data, its side `Math.sqrt(data.length)`,
      the canvas size and the opacity the frame is drawn at. */
  datatype HeatmapDraw = HeatmapDraw(data: seq<real>, size: nat, width: nat, height: nat, opacity: real) {
    /** The data is a `size x size` grid; other lengths have no meaning in the source. */
    predicate WellFormed() {
      |data| == size * size
    }
  }

  // ---------------------------------------------------------------------------
  // Block geometry. Blocks use `cellSize = canvas.width / size` on both axes.

  /** First pixel of block `k`: `Math.floor(k * cellSize)`. Block `k` ends where
      block `k + 1` starts. */
  function BlockStart(k: nat, width: nat, size: nat): (x: nat)
    requires size > 0
    ensures k == 0 ==> x == 0
    ensures k == size ==> x == width
  {
    DivModUnique(size * width, size, width, 0);
    (k * width) / size
  }

  /** The block whose pixel range holds coordinate `coord`. */
  function CellAt(coord: nat, width: nat, size: nat): nat
    requires width > 0 && size > 0
  {
    ((coord + 1) * size - 1) / width
  }

  /** The integer form agrees with flooring the real product `k * (width / size)`. */
  lemma BlockStartIsFloor(k: nat, width: nat, size: nat, cellSize: real)
    requires size > 0 && cellSize == width as real / size as real
    ensures BlockStart(k, width, size) == (k as real * cellSize).Floor
  {
    var q, r := (k * width) / size, (k * width) % size;
    var x := k as real * cellSize;
    assert (k * width) as real == k as real * width as real;
    assert x == (k * width) as real / size as real;
    assert (k * width) as real == q as real * size as real + r as real;
    assert x == q as real + r as real / size as real;
    assert 0.0 <= r as real / size as real < 1.0;
  }

  lemma BlockStartLeIff(c: nat, coord: nat, width: nat, size: nat)
    requires width > 0 && size > 0
    ensures BlockStart(c, width, size) <= coord <==> c <= CellAt(coord, width, size)
  {
    DivLeIff(c * width, size, coord);
    LeDivIff((coord + 1) * size - 1, width, c);
  }

  /** Coordinate `coord` lies in block `c` exactly when `CellAt` names `c`:
      blocks neither overlap nor leave gaps. */
  lemma CellAtIff(coord: nat, c: nat, width: nat, size: nat)
    requires width > 0 && size > 0
    ensures BlockStart(c, width, size) <= coord < BlockStart(c + 1, width, size)
            <==> CellAt(coord, width, size) == c
  {
    BlockStartLeIff(c, coord, width, size);
    BlockStartLeIff(c + 1, coord, width, size);
  }

  /** The blocks start at 0, never shrink below empty, and the last one ends at `width`. */
  lemma BlocksSpanWidth(width: nat, size: nat, c: nat)
    requires size > 0
    ensures BlockStart(0, width, size) == 0
    ensures BlockStart(size, width, size) == width
    ensures BlockStart(c, width, size) <= BlockStart(c + 1, width, size)
  {
    DivModUnique(size * width, size, width, 0);
    assert (c + 1) * width == c * width + width;
    DivMonotone(c * width, (c + 1) * width, size);
  }

  /** Every block of the `size` blocks ends at or before `width`. */
  lemma BlockEndWithinWidth(c: nat, width: nat, size: nat)
    requires c < size
    ensures BlockStart(c + 1, width, size) <= width
  {
    BlocksSpanWidth(width, size, 0);
    MulMonotone(c + 1, size, width);
    DivMonotone((c + 1) * width, size * width, size);
  }

  /** A coordinate falls in one of the `size` blocks exactly when it is left of `width`. */
  lemma CellAtInRange(coord: nat, width: nat, size: nat)
    requires width > 0 && size > 0
    ensures coord < width <==> CellAt(coord, width, size) < size
  {
    BlocksSpanWidth(width, size, 0);
    BlockStartLeIff(size, coord, width, size);
  }

  // ---------------------------------------------------------------------------
  // Pixel layout: byte `(y * width + x) * 4 + channel` of the RGBA buffer.

  function PixelIndex(x: nat, y: nat, width: nat): nat {
    (y * width + x) * 4
  }

  function Px(p: nat, width: nat): nat
    requires width > 0
  {
    (p / 4) % width
  }

  function Py(p: nat, width: nat): nat
    requires width > 0
  {
    (p / 4) / width
  }

  lemma PixelOfIndex(p: nat, x: nat, y: nat, width: nat)
    requires x < width
    ensures p / 4 == y * width + x <==> Px(p, width) == x && Py(p, width) == y
  {
    var n := p / 4;
    assert n == (n / width) * width + n % width;
    if n == y * width + x {
      DivModUnique(n, width, y, x);
    }
  }

  lemma PixelIndexInBuffer(x: nat, y: nat, width: nat, height: nat)
    requires x < width && y < height
    ensures PixelIndex(x, y, width) + 3 < width * height * 4
  {
    MulMonotone(y, height - 1, width);
    assert (height - 1) * width + width == width * height;
  }

  lemma RowInBuffer(p: nat, width: nat, height: nat)
    requires width > 0 && p < width * height * 4
    ensures Py(p, width) < height
  {
    DivLeIff(p, 4, width * height - 1);
    DivLeIff(p / 4, width, height - 1);
    assert height * width == width * height;
  }

  // ---------------------------------------------------------------------------
  // What the finished buffer holds.

  /** Byte `p` lies in the block of some element: its row block exists (rows past
      `width` are left untouched when the canvas is taller than wide). */
  predicate Covered(d: HeatmapDraw, p: nat) {
    d.size > 0 && d.width > 0 && CellAt(Py(p, d.width), d.width, d.size) < d.size
  }

  /** The element whose block holds byte `p`: row-major, `row * size + col`. */
  function OwnerCell(d: HeatmapDraw, p: nat): (i: nat)
    requires Covered(d, p)
    ensures d.WellFormed() ==> i < |d.data|
  {
    var row, col := CellAt(Py(p, d.width), d.width, d.size), CellAt(Px(p, d.width), d.width, d.size);
    CellAtInRange(Px(p, d.width), d.width, d.size);
    RowMajorBound(row, col, d.size);
    row * d.size + col
  }

  lemma RowMajorBound(row: nat, col: nat, size: nat)
    requires row < size && col < size
    ensures row * size + col < size * size
  {
    MulMonotone(row, size - 1, size);
  }

  function ChannelValue(c: Rgb, alpha: int, ch: nat): int
    requires ch < 4
  {
    if ch == 0 then c.r else if ch == 1 then c.g else if ch == 2 then c.b else alpha
  }

  /** `Math.round(255 * opacity)`. */
  function Alpha(opacity: real): int {
    Round(255.0 * opacity)
  }

  /** The colours of all elements, in data order. */
  function Palette(data: seq<real>): (colors: seq<Rgb>)
    ensures |colors| == |data|
  {
    seq(|data|, k requires 0 <= k < |data| => CellColor(data, k))
  }

  /** Byte `p` of a buffer whose blocks are painted with `colors`: the channel
      of its owner's colour, or 0 (the fresh `ImageData`) outside every block. */
  function PaintedByte(d: HeatmapDraw, colors: seq<Rgb>, p: nat): int
    requires d.WellFormed() && |colors| == |d.data|
  {
    if Covered(d, p) then Byte(ChannelValue(colors[OwnerCell(d, p)], Alpha(d.opacity), p % 4))
    else 0
  }

  /** Byte `p` of the drawn heatmap. */
  function ExpectedByte(d: HeatmapDraw, p: nat): (b: int)
    requires d.WellFormed()
    ensures 0 <= b <= 255
  {
    PaintedByte(d, Palette(d.data), p)
  }

  function StartX(d: HeatmapDraw, i: nat): nat requires d.size > 0 { BlockStart(i % d.size, d.width, d.size) }
  function EndX(d: HeatmapDraw, i: nat): nat requires d.size > 0 { BlockStart(i % d.size + 1, d.width, d.size) }
  function StartY(d: HeatmapDraw, i: nat): nat requires d.size > 0 { BlockStart(i / d.size, d.width, d.size) }
  function EndY(d: HeatmapDraw, i: nat): nat requires d.size > 0 { BlockStart(i / d.size + 1, d.width, d.size) }

  /** Element `i`, at row `i / size` and column `i % size`, owns exactly the
      pixels of its block [StartX, EndX) x [StartY, EndY). */
  lemma CellFootprint(d: HeatmapDraw, p: nat, i: nat)
    requires d.WellFormed() && d.size > 0 && d.width > 0 && i < |d.data|
    ensures (Covered(d, p) && OwnerCell(d, p) == i)
            <==> (StartY(d, i) <= Py(p, d.width) < EndY(d, i) && StartX(d, i) <= Px(p, d.width) < EndX(d, i))
  {
    var s, w := d.size, d.width;
    var py, px := Py(p, w), Px(p, w);
    var cy, cx := CellAt(py, w, s), CellAt(px, w, s);
    CellAtIff(py, i / s, w, s);
    CellAtIff(px, i % s, w, s);
    CellAtInRange(px, w, s);
    DivLeIff(i, s, s - 1);
    RowMajorIff(i, s, cy, cx);
  }

  /** A byte is inside some element's block exactly when the grid is non-empty and
      its row is above `width`: rows are cut with the width's cell size, so on a
      canvas taller than wide the bottom rows stay transparent black. */
  lemma CoveredIff(d: HeatmapDraw, p: nat)
    requires d.width > 0
    ensures Covered(d, p) <==> d.size > 0 && Py(p, d.width) < d.width
  {
    if d.size > 0 {
      CellAtInRange(Py(p, d.width), d.width, d.size);
    }
  }

  /** With opacity in [0, 1] (every frame the panel draws), the alpha byte is
      exactly `Math.round(255 * opacity)`, and 255 for a fully opaque draw. */
  lemma AlphaByte(opacity: real)
    requires 0.0 <= opacity <= 1.0
    ensures Byte(Alpha(opacity)) == Alpha(opacity)
    ensures opacity == 1.0 ==> Alpha(opacity) == 255
  {
    RoundInByteRange(255.0 * opacity);
    RoundOfInteger(255);
  }

  /** Every covered pixel carries its owner's ramp colour unclamped, and alpha
      `Math.round(255 * opacity)`. */
  lemma CoveredPixelBytes(d: HeatmapDraw, p: nat)
    requires d.WellFormed() && Covered(d, p) && 0.0 <= d.opacity <= 1.0
    ensures var c := CellColor(d.data, OwnerCell(d, p));
            ExpectedByte(d, p) == ChannelValue(c, Alpha(d.opacity), p % 4)
  {
    CellColorInRange(d.data, OwnerCell(d, p));
    AlphaByte(d.opacity);
  }

  /** A constant feature array paints every covered pixel teal (33, 170, 155). */
  lemma ConstantHeatmapIsTeal(d: HeatmapDraw, p: nat)
    requires d.WellFormed() && Covered(d, p) && p % 4 < 3
    requires forall k :: 0 <= k < |d.data| ==> d.data[k] == d.data[0]
    ensures ExpectedByte(d, p) == ChannelValue(Teal, 0, p % 4)
  {
    ConstantDataIsTeal(d.data, OwnerCell(d, p));
  }

  // ---------------------------------------------------------------------------
  // Loop progress: elements before `i` done, element `i` done up to row `y`, column `x`.

  predicate Done(d: HeatmapDraw, p: nat, i: nat, y: nat, x: nat) {
    Covered(d, p) &&
    var o := OwnerCell(d, p);
    o < i || (o == i && (Py(p, d.width) < y || (Py(p, d.width) == y && Px(p, d.width) < x)))
  }

  ghost predicate FilledUpTo(d: HeatmapDraw, colors: seq<Rgb>, s: seq<int>, i: nat, y: nat, x: nat)
    requires d.WellFormed() && |colors| == |d.data|
  {
    |s| == d.width * d.height * 4 &&
    forall p :: 0 <= p < |s| ==> s[p] == (if Done(d, p, i, y, x) then PaintedByte(d, colors, p) else 0)
  }

  lemma FilledInitially(d: HeatmapDraw, colors: seq<Rgb>, s: seq<int>)
    requires d.WellFormed() && |colors| == |d.data| && |s| == d.width * d.height * 4
    requires forall p :: 0 <= p < |s| ==> s[p] == 0
    ensures FilledUpTo(d, colors, s, 0, 0, 0)
  {
  }

  lemma FilledStartCell(d: HeatmapDraw, colors: seq<Rgb>, s: seq<int>, i: nat)
    requires d.WellFormed() && |colors| == |d.data| && d.size > 0 && i < |d.data|
    requires FilledUpTo(d, colors, s, i, 0, 0)
    ensures FilledUpTo(d, colors, s, i, StartY(d, i), StartX(d, i))
  {
    if d.width > 0 {
      forall p | 0 <= p < |s|
        ensures Done(d, p, i, 0, 0) == Done(d, p, i, StartY(d, i), StartX(d, i))
      {
        CellFootprint(d, p, i);
      }
    }
  }

  lemma FilledRowDone(d: HeatmapDraw, colors: seq<Rgb>, s: seq<int>, i: nat, y: nat)
    requires d.WellFormed() && |colors| == |d.data| && d.size > 0 && i < |d.data|
    requires FilledUpTo(d, colors, s, i, y, EndX(d, i))
    ensures FilledUpTo(d, colors, s, i, y + 1, StartX(d, i))
  {
    if d.width > 0 {
      forall p | 0 <= p < |s|
        ensures Done(d, p, i, y, EndX(d, i)) == Done(d, p, i, y + 1, StartX(d, i))
      {
        CellFootprint(d, p, i);
      }
    }
  }

  lemma FilledCellDone(d: HeatmapDraw, colors: seq<Rgb>, s: seq<int>, i: nat)
    requires d.WellFormed() && |colors| == |d.data| && d.size > 0 && i < |d.data|
    requires FilledUpTo(d, colors, s, i, EndY(d, i), StartX(d, i))
    ensures FilledUpTo(d, colors, s, i + 1, 0, 0)
  {
    if d.width > 0 {
      forall p | 0 <= p < |s|
        ensures Done(d, p, i, EndY(d, i), StartX(d, i)) == Done(d, p, i + 1, 0, 0)
      {
        CellFootprint(d, p, i);
      }
    }
  }

  /** A pixel outside the canvas (`y >= height`) is skipped and changes nothing. */
  lemma FilledSkip(d: HeatmapDraw, colors: seq<Rgb>, s: seq<int>, i: nat, y: nat, x: nat)
    requires d.WellFormed() && |colors| == |d.data| && d.width > 0 && y >= d.height
    requires FilledUpTo(d, colors, s, i, y, x)
    ensures FilledUpTo(d, colors, s, i, y, x + 1)
  {
    forall p | 0 <= p < |s|
      ensures Done(d, p, i, y, x) == Done(d, p, i, y, x + 1)
    {
      RowInBuffer(p, d.width, d.height);
    }
  }

  /** Writing the four bytes of pixel (x, y) of element `i`'s block advances the fill by
      one pixel and changes no byte of any other pixel. */
  lemma FilledPixel(d: HeatmapDraw, colors: seq<Rgb>, s: seq<int>, i: nat, y: nat, x: nat, color: Rgb, alpha: int)
    requires d.WellFormed() && d.size > 0 && d.width > 0 && i < |d.data|
    requires StartY(d, i) <= y < EndY(d, i) && StartX(d, i) <= x < EndX(d, i)
    requires x < d.width && y < d.height
    requires |colors| == |d.data| && color == colors[i] && alpha == Alpha(d.opacity)
    requires FilledUpTo(d, colors, s, i, y, x)
    ensures PixelIndex(x, y, d.width) + 3 < |s|
    ensures var pi := PixelIndex(x, y, d.width);
            FilledUpTo(d, colors, s[pi := Byte(color.r)][pi + 1 := Byte(color.g)][pi + 2 := Byte(color.b)][pi + 3 := Byte(alpha)],
                       i, y, x + 1)
  {
    var w := d.width;
    var pi := PixelIndex(x, y, w);
    PixelIndexInBuffer(x, y, w, d.height);
    var s' := s[pi := Byte(color.r)][pi + 1 := Byte(color.g)][pi + 2 := Byte(color.b)][pi + 3 := Byte(alpha)];
    forall p | 0 <= p < |s'|
      ensures s'[p] == (if Done(d, p, i, y, x + 1) then PaintedByte(d, colors, p) else 0)
    {
      PixelOfIndex(p, x, y, w);
      CellFootprint(d, p, i);
      assert p == (p / 4) * 4 + p % 4;
      if pi <= p < pi + 4 {
        DivModUnique(p, 4, y * w + x, p - pi);
      } else {
        assert s'[p] == s[p];
      }
    }
  }

  lemma FilledFinally(d: HeatmapDraw, colors: seq<Rgb>, s: seq<int>)
    requires d.WellFormed() && colors == Palette(d.data)
    requires FilledUpTo(d, colors, s, |d.data|, 0, 0)
    ensures forall p :: 0 <= p < |s| ==> s[p] == ExpectedByte(d, p)
  {
  }

  // ---------------------------------------------------------------------------
  // The fill itself.

  /** `createImageData` then the `for i` loop of the heatmap fill: each element's
      colour is computed once and its block painted. */
  method DrawHeatmap(d: HeatmapDraw) returns (r: Result<array<int>, string>)
    requires d.WellFormed()
    ensures r.Failure? <==> d.width == 0 || d.height == 0
    ensures r.Failure? ==> r.error == IndexSizeError
    ensures r.Success? ==> fresh(r.value)
    ensures r.Success? ==> r.value.Length == d.width * d.height * 4
    ensures r.Success? ==> forall p :: 0 <= p < r.value.Length ==> r.value[p] == ExpectedByte(d, p)
  {
    if d.width == 0 || d.height == 0 {
      // `createImageData` rejects a zero-sized buffer.
      return Failure(IndexSizeError);
    }
    var pixels := new int[d.width * d.height * 4](_ => 0);
    r := Success(pixels);
    ghost var colors := Palette(d.data);
    FilledInitially(d, colors, pixels[..]);
    if |d.data| == 0 {
      // `Math.max()` of no values is never used: the loop below has no iteration.
      return;
    }
    var maxVal := SeqMax(d.data);
    var minVal := SeqMin(d.data);
    var cellSize := d.width as real / d.size as real;
    var i := 0;
    while i < |d.data|
      invariant 0 <= i <= |d.data|
      invariant FilledUpTo(d, colors, pixels[..], i, 0, 0)
    {
      var color := RampColor(Normalize(d.data[i], minVal, maxVal));
      var startX, endX, startY, endY := CellBounds(d, i, cellSize);
      assert color == colors[i];
      FillBlock(d, colors, pixels, i, color, startX, endX, startY, endY);
      i := i + 1;
    }
    FilledFinally(d, colors, pixels[..]);
  }

  /** The pixel range of element `i`'s block: row `Math.floor(i / size)`, column
      `i % size`, edges `Math.floor(k * cellSize)`. */
  method CellBounds(d: HeatmapDraw, i: nat, cellSize: real) returns (startX: int, endX: int, startY: int, endY: int)
    requires d.size > 0 && cellSize == d.width as real / d.size as real
    ensures startX == StartX(d, i) && endX == EndX(d, i)
    ensures startY == StartY(d, i) && endY == EndY(d, i)
  {
    var row, col := i / d.size, i % d.size;
    startX := (col as real * cellSize).Floor;
    BlockStartIsFloor(col, d.width, d.size, cellSize);
    assert startX == StartX(d, i);
    startY := (row as real * cellSize).Floor;
    BlockStartIsFloor(row, d.width, d.size, cellSize);
    assert startY == StartY(d, i);
    endX := ((col + 1) as real * cellSize).Floor;
    BlockStartIsFloor(col + 1, d.width, d.size, cellSize);
    assert endX == EndX(d, i);
    endY := ((row + 1) as real * cellSize).Floor;
    BlockStartIsFloor(row + 1, d.width, d.size, cellSize);
  }

  /** The `for y` / `for x` loops that paint element `i`'s block, skipping pixels
      that fall outside the canvas. */
  method FillBlock(d: HeatmapDraw, ghost colors: seq<Rgb>, pixels: array<int>, i: nat, color: Rgb,
                   startX: int, endX: int, startY: int, endY: int)
    requires d.WellFormed() && d.size > 0 && i < |d.data|
    requires |colors| == |d.data| && color == colors[i]
    requires startX == StartX(d, i) && endX == EndX(d, i) && startY == StartY(d, i) && endY == EndY(d, i)
    requires FilledUpTo(d, colors, pixels[..], i, 0, 0)
    modifies pixels
    ensures FilledUpTo(d, colors, pixels[..], i + 1, 0, 0)
  {
    BlocksSpanWidth(d.width, d.size, i % d.size);
    BlocksSpanWidth(d.width, d.size, i / d.size);
    BlockEndWithinWidth(i % d.size, d.width, d.size);
    FilledStartCell(d, colors, pixels[..], i);
    var y := startY;
    while y < endY
      invariant startY <= y <= endY
      invariant FilledUpTo(d, colors, pixels[..], i, y, startX)
    {
      var x := startX;
      while x < endX
        invariant startX <= x <= endX
        invariant FilledUpTo(d, colors, pixels[..], i, y, x)
      {
        if x < d.width && y < d.height {
          PaintPixel(d, colors, pixels, i, y, x, color);
        } else {
          FilledSkip(d, colors, pixels[..], i, y, x);
        }
        x := x + 1;
      }
      FilledRowDone(d, colors, pixels[..], i, y);
      y := y + 1;
    }
    FilledCellDone(d, colors, pixels[..], i);
  }

  /** The four byte stores of one pixel, at `(y * canvas.width + x) * 4`. */
  method PaintPixel(d: HeatmapDraw, ghost colors: seq<Rgb>, pixels: array<int>, i: nat, y: nat, x: nat, color: Rgb)
    requires d.WellFormed() && d.size > 0 && i < |d.data|
    requires StartY(d, i) <= y < EndY(d, i) && StartX(d, i) <= x < EndX(d, i)
    requires x < d.width && y < d.height
    requires |colors| == |d.data| && color == colors[i]
    requires FilledUpTo(d, colors, pixels[..], i, y, x)
    modifies pixels
    ensures FilledUpTo(d, colors, pixels[..], i, y, x + 1)
  {
    var pixelIndex := (y * d.width + x) * 4;
    FilledPixel(d, colors, pixels[..], i, y, x, color, Alpha(d.opacity));
    ghost var before := pixels[..];
    pixels[pixelIndex] := Byte(color.r);
    pixels[pixelIndex + 1] := Byte(color.g);
    pixels[pixelIndex + 2] := Byte(color.b);
    pixels[pixelIndex + 3] := Byte(Round(255.0 * d.opacity));
    assert pixels[..] == before[pixelIndex := Byte(color.r)][pixelIndex + 1 := Byte(color.g)]
                               [pixelIndex + 2 := Byte(color.b)][pixelIndex + 3 := Byte(Alpha(d.opacity))];
  }
}
