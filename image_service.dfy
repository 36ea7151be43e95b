/** `createHeatmapFromFeatures` of the image service: a simpler 2-segment
    blue -> green -> yellow ramp, drawn as one `fillRect` per feature element. */
module ImageService {
  import opened Numeric
  import opened Heatmap

  const RampBlue := Rgb(0, 0, 255)
  const RampGreen := Rgb(0, 255, 0)
  const RampYellow := Rgb(255, 255, 0)

  /** Blue to green below 0.5 (`t = normalizedValue * 2`), green to yellow from
      0.5 on (`t = (normalizedValue - 0.5) * 2`). */
  function TwoSegmentColor(n: real): (c: Rgb)
    ensures n == 0.0 ==> c == RampBlue
    ensures n == 0.5 ==> c == RampGreen
    ensures n == 1.0 ==> c == RampYellow
  {
    if n < 0.5 then Blend(RampBlue, RampGreen, n * 2.0)
    else Blend(RampGreen, RampYellow, (n - 0.5) * 2.0)
  }

  /** Below 0.5 red is always 0; from 0.5 on blue is always 0 and green always 255. */
  lemma TwoSegmentChannels(n: real)
    ensures n < 0.5 ==> TwoSegmentColor(n).r == 0
    ensures n >= 0.5 ==> TwoSegmentColor(n).b == 0 && TwoSegmentColor(n).g == 255
  {
    RoundOfInteger(0);
    RoundOfInteger(255);
    var t := (n - 0.5) * 2.0;
    assert Lerp(255, 255, t) == 255.0;
    assert Lerp(0, 0, t) == 0.0;
    assert Lerp(0, 0, n * 2.0) == 0.0;
  }

  /** The ramp starts blue, ends yellow, is green at 0.5, and the lower segment
      ends on the green the upper one starts from. */
  lemma TwoSegmentEndsAndJoin()
    ensures TwoSegmentColor(0.0) == RampBlue && TwoSegmentColor(1.0) == RampYellow
    ensures Blend(RampBlue, RampGreen, 1.0) == TwoSegmentColor(0.5) == RampGreen
  {
  }

  /** Normalised values in [0, 1] give valid 8-bit colours. */
  lemma TwoSegmentInRange(n: real)
    requires 0.0 <= n <= 1.0
    ensures InByteRange(TwoSegmentColor(n))
  {
    if n < 0.5 {
      BlendInRange(RampBlue, RampGreen, n * 2.0);
    } else {
      BlendInRange(RampGreen, RampYellow, (n - 0.5) * 2.0);
    }
  }

  /** The colour `createHeatmapFromFeatures` gives element `k`. */
  function FeatureColor(featureMap: seq<real>, k: nat): Rgb
    requires k < |featureMap|
  {
    TwoSegmentColor(Normalize(featureMap[k], SeqMin(featureMap), SeqMax(featureMap)))
  }

  /** A constant feature map is all green; otherwise its minimum is blue and its
      maximum yellow. */
  lemma FeatureColorEnds(featureMap: seq<real>, k: nat)
    requires k < |featureMap|
    ensures SeqMin(featureMap) == SeqMax(featureMap) ==> FeatureColor(featureMap, k) == RampGreen
    ensures SeqMin(featureMap) < SeqMax(featureMap) && featureMap[k] == SeqMin(featureMap) ==>
              FeatureColor(featureMap, k) == RampBlue
    ensures SeqMin(featureMap) < SeqMax(featureMap) && featureMap[k] == SeqMax(featureMap) ==>
              FeatureColor(featureMap, k) == RampYellow
  {
    TwoSegmentEndsAndJoin();
  }

  /** `ctx.fillRect(x, y, w, h)` with `fillStyle` set to `color`. */
  datatype FillRect = FillRect(x: real, y: real, w: real, h: real, color: Rgb)

  /** The canvas `createHeatmapFromFeatures` returns: its size and the fills drawn on it. */
  datatype Drawing = Drawing(width: nat, height: nat, fills: seq<FillRect>)

  /** Element `index` sits at row `Math.floor(index / size)`, column `index % size`,
      and fills one `cellWidth x cellHeight` rectangle there. */
  function CellRect(index: nat, size: nat, width: nat, height: nat, color: Rgb): FillRect
    requires size > 0
  {
    var cellWidth := width as real / size as real;
    var cellHeight := height as real / size as real;
    FillRect(Edge(index % size, cellWidth), Edge(index / size, cellHeight), cellWidth, cellHeight, color)
  }

  /** The offset of cell `k` along one axis: `k * cellWidth` or `k * cellHeight`. */
  function Edge(k: nat, cell: real): real {
    k as real * cell
  }

  /** The rectangles tile the canvas: each one ends where its right-hand
      neighbour starts, and the last column ends at the canvas width. */
  lemma CellRectsTileAcross(index: nat, size: nat, width: nat, height: nat, c: Rgb, c': Rgb)
    requires 0 < size && index < size * size
    ensures var r := CellRect(index, size, width, height, c);
            && (index % size + 1 < size ==> CellRect(index + 1, size, width, height, c').x == r.x + r.w
                                             && CellRect(index + 1, size, width, height, c').y == r.y)
            && (index % size + 1 == size ==> r.x + r.w == width as real)
  {
    var row, col := index / size, index % size;
    CellEdges(col, width, size);
    if col + 1 < size {
      DivModUnique(index + 1, size, row, col + 1);
    }
  }

  /** ... and each one ends where the rectangle below it starts, and the last
      row ends at the canvas height. */
  lemma CellRectsTileDown(index: nat, size: nat, width: nat, height: nat, c: Rgb, c': Rgb)
    requires 0 < size && index < size * size
    ensures var r := CellRect(index, size, width, height, c);
            && (index / size + 1 < size ==> CellRect(index + size, size, width, height, c').y == r.y + r.h
                                             && CellRect(index + size, size, width, height, c').x == r.x)
            && (index / size + 1 == size ==> r.y + r.h == height as real)
  {
    var row, col := index / size, index % size;
    CellEdges(row, height, size);
    DivModUnique(index + size, size, row + 1, col);
  }

  /** Edge `k + 1` of an axis of `total` pixels cut into `size` cells is one cell
      past edge `k`, and edge `size` is the far side of the axis. */
  lemma CellEdges(k: nat, total: nat, size: nat)
    requires size > 0
    ensures Edge(k + 1, total as real / size as real) == Edge(k, total as real / size as real) + total as real / size as real
    ensures k + 1 == size ==> Edge(k + 1, total as real / size as real) == total as real
  {
  }

  /** `createHeatmapFromFeatures(featureMap, width = 256, height = 256)`: a canvas
      of the given size with one rectangle per element, drawn in data order. */
  method CreateHeatmapFromFeatures(featureMap: seq<real>, size: nat, width: nat := 256, height: nat := 256)
    returns (canvas: Drawing)
    requires |featureMap| == size * size
    ensures canvas.width == width && canvas.height == height
    ensures |canvas.fills| == |featureMap|
    ensures forall k :: 0 <= k < |featureMap| ==>
              canvas.fills[k] == CellRect(k, size, width, height, FeatureColor(featureMap, k))
  {
    canvas := Drawing(width, height, []);
    if |featureMap| == 0 {
      // `forEach` has nothing to draw.
      return;
    }
    var minVal := SeqMin(featureMap);
    var maxVal := SeqMax(featureMap);
    var index := 0;
    while index < |featureMap|
      invariant 0 <= index <= |featureMap|
      invariant canvas.width == width && canvas.height == height
      invariant |canvas.fills| == index
      invariant forall k :: 0 <= k < index ==>
                  canvas.fills[k] == CellRect(k, size, width, height, FeatureColor(featureMap, k))
    {
      var color := TwoSegmentColor(Normalize(featureMap[index], minVal, maxVal));
      canvas := canvas.(fills := canvas.fills + [CellRect(index, size, width, height, color)]);
      index := index + 1;
    }
  }
}
