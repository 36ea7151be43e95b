/** How the pieces meet in the page: the feature map of a prediction is drawn
    by the visualisation panel on its canvas. The canvas starts at 256 x 256;
    showing the original image sets its width to `height * aspectRatio`, and
    later heatmap frames draw on a canvas of that width. */
module EndToEnd {
  import opened Heatmap
  import opened HeatmapCanvas
  import ModelService

  /** The canvas element is created 256 x 256 pixels. */
  const CanvasSide: nat := 256

  /** The panel's drawing of the first feature map of a prediction on a canvas
      of `width x height` pixels. */
  function PanelDraw(p: ModelService.Prediction, width: nat, height: nat, opacity: real): (d: HeatmapDraw)
    requires |p.featureMaps| > 0 && |p.featureMaps[0].data| == ModelService.FeatureLength
    ensures d.WellFormed() && d.size == ModelService.MapSide
    ensures d.data == p.featureMaps[0].data && d.width == width && d.height == height
  {
    HeatmapDraw(p.featureMaps[0].data, ModelService.MapSide, width, height, opacity)
  }

  /** An image whose every pixel is the same grey gives a constant feature map.
      On any canvas the panel paints the rows above the width teal and leaves
      the rest blank, so a canvas at least as wide as it is high (the initial
      256 x 256 one included) is painted teal throughout. */
  lemma GreyImagePaintsTeal(scores: seq<real>, pixels: seq<ModelService.Pixel>, v: real,
                            width: nat, height: nat, opacity: real, p: nat)
    requires |scores| == |ModelService.ClassNames| && |pixels| == ModelService.FeatureLength
    requires forall i :: 0 <= i < |pixels| ==> pixels[i] == ModelService.Pixel(v, v, v)
    requires width > 0 && p < width * height * 4 && p % 4 < 3
    ensures var d := PanelDraw(ModelService.Assemble(scores, pixels), width, height, opacity);
            && (Covered(d, p) <==> Py(p, width) < width)
            && (height <= width ==> Covered(d, p))
            && (Covered(d, p) ==> ExpectedByte(d, p) == ChannelValue(Teal, 0, p % 4))
            && (!Covered(d, p) ==> ExpectedByte(d, p) == 0)
  {
    var d := PanelDraw(ModelService.Assemble(scores, pixels), width, height, opacity);
    ModelService.GrayscaleOfUniformImage(pixels, v);
    assert forall k :: 0 <= k < |d.data| ==> d.data[k] == v;
    RowInBuffer(p, width, height);
    CoveredIff(d, p);
    if Covered(d, p) {
      ConstantHeatmapIsTeal(d, p);
    }
  }
}
