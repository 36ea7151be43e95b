/** The model service: a module-level cache of the loaded graph model and the
    assembly of a prediction from the classifier's scores. The TensorFlow.js
    calls are abstracted: a load is an outcome passed in, the forward pass is
    a score sequence (or a failure), the preprocessed input is its pixels. */
module ModelService {
  import opened Wrappers

  /** `CLASS_NAMES`, in the order of the classifier's outputs. */
  const ClassNames: seq<string> := ["CLL", "FL", "MCL"]

  /** The preprocessed input is 256 x 256 pixels; the feature map has one entry per pixel. */
  const MapSide: nat := 256
  const FeatureLength: nat := MapSide * MapSide

  const FeatureMapName := "Grayscale Analysis"
  const LoadErrorPrefix := "Failed to load model as GraphModel ("
  const NotLoadedError := "Model not loaded"
  const AnalyzeError := "Failed to analyze the lymphoma image"

  /** A loaded graph model, told apart by the number of the load that produced it. */
  datatype GraphModel = GraphModel(load: nat)

  /** What `tf.loadGraphModel` does when it is called: resolve, or reject with a reason. */
  datatype LoadOutcome = Loaded | LoadRejected(reason: string)

  /** What the body of the `try` in `predictImage` meets: the classifier's scores
      for the one input image, or an exception somewhere in it. */
  datatype ForwardPass = Scores(scores: seq<real>) | Throws

  /** One pixel of the preprocessed input tensor (shape [1, 256, 256, 3]). */
  datatype Pixel = Pixel(r: real, g: real, b: real)

  /** The tensors `predictImage` disposes of. */
  datatype Tensor = InputTensor | PredsTensor

  datatype FeatureMap = FeatureMap(name: string, data: seq<real>)

  datatype Prediction = Prediction(className: string, probability: real, featureMaps: seq<FeatureMap>)

  /** `tf.argMax` over the class axis: the first index holding the largest score. */
  function ArgMax(s: seq<real>): (k: nat)
    requires |s| > 0
    ensures k < |s|
    ensures forall j :: 0 <= j < |s| ==> s[j] <= s[k]
    ensures forall j :: 0 <= j < k ==> s[j] < s[k]
    decreases |s|
  {
    if |s| == 1 then 0
    else
      var k := ArgMax(s[..|s| - 1]);
      if s[|s| - 1] > s[k] then |s| - 1 else k
  }

  /** There is only one first maximum: any index that dominates every score and
      is strictly above those before it is `ArgMax`. */
  lemma ArgMaxUnique(s: seq<real>, k: nat)
    requires k < |s|
    requires forall j :: 0 <= j < |s| ==> s[j] <= s[k]
    requires forall j :: 0 <= j < k ==> s[j] < s[k]
    ensures ArgMax(s) == k
  {
  }

  /** The mean of a pixel's three channels: between the smallest and the largest
      channel, and the channel value itself for a grey pixel. */
  function Mean(p: Pixel): (m: real)
    ensures (m <= p.r || m <= p.g || m <= p.b) && (m >= p.r || m >= p.g || m >= p.b)
    ensures p.r == p.g == p.b ==> m == p.r
  {
    (p.r + p.g + p.b) / 3.0
  }

  /** `tensor.mean([3]).reshape([256*256])`: one entry per pixel, in row-major
      order, each lying between the smallest and the largest of its channels. */
  function GrayscaleMeans(pixels: seq<Pixel>): (data: seq<real>)
    ensures |data| == |pixels|
    ensures forall i :: 0 <= i < |pixels| ==>
              (data[i] <= pixels[i].r || data[i] <= pixels[i].g || data[i] <= pixels[i].b)
              && (data[i] >= pixels[i].r || data[i] >= pixels[i].g || data[i] >= pixels[i].b)
  {
    seq(|pixels|, i requires 0 <= i < |pixels| => Mean(pixels[i]))
  }

  /** A grey pixel (all channels equal) keeps its value, and an image made of one
      pixel value gives a feature map of one value. */
  lemma GrayscaleOfUniformImage(pixels: seq<Pixel>, v: real)
    requires forall i :: 0 <= i < |pixels| ==> pixels[i] == Pixel(v, v, v)
    ensures forall i :: 0 <= i < |pixels| ==> GrayscaleMeans(pixels)[i] == v
  {
  }

  /** The prediction `predictImage` returns when its forward pass yields `scores`. */
  function Assemble(scores: seq<real>, pixels: seq<Pixel>): (p: Prediction)
    requires |scores| == |ClassNames|
    ensures p.className in ClassNames
    ensures p.probability in scores
    ensures forall j :: 0 <= j < |scores| ==> scores[j] <= p.probability
    ensures |p.featureMaps| == 1 && p.featureMaps[0].name == FeatureMapName
    ensures |p.featureMaps[0].data| == |pixels|
  {
    var classIndex := ArgMax(scores);
    Prediction(ClassNames[classIndex], scores[classIndex], [FeatureMap(FeatureMapName, GrayscaleMeans(pixels))])
  }

  /** The class names are pairwise distinct. */
  lemma ClassNamesDistinct(i: nat, j: nat)
    requires i < |ClassNames| && j < |ClassNames| && ClassNames[i] == ClassNames[j]
    ensures i == j
  {
    assert ClassNames[0][0] == 'C' && ClassNames[1][0] == 'F' && ClassNames[2][0] == 'M';
  }

  /** Class `k` is predicted exactly when its score is the first maximum, and then
      the probability is its raw score, not renormalised. */
  lemma PredictedClassIsFirstMaximum(scores: seq<real>, pixels: seq<Pixel>, k: nat)
    requires |scores| == |ClassNames| && k < |scores|
    ensures Assemble(scores, pixels).className == ClassNames[k] <==>
              (forall j :: 0 <= j < |scores| ==> scores[j] <= scores[k])
              && (forall j :: 0 <= j < k ==> scores[j] < scores[k])
    ensures Assemble(scores, pixels).className == ClassNames[k] ==> Assemble(scores, pixels).probability == scores[k]
  {
    var a := ArgMax(scores);
    if Assemble(scores, pixels).className == ClassNames[k] {
      ClassNamesDistinct(a, k);
    }
    if (forall j :: 0 <= j < |scores| ==> scores[j] <= scores[k]) && (forall j :: 0 <= j < k ==> scores[j] < scores[k]) {
      ArgMaxUnique(scores, k);
    }
  }

  /** The feature map holds exactly the per-pixel channel means of the input. */
  lemma FeatureMapIsChannelMean(scores: seq<real>, pixels: seq<Pixel>, i: nat)
    requires |scores| == |ClassNames| && i < |pixels|
    ensures Assemble(scores, pixels).featureMaps[0].data[i] * 3.0 == pixels[i].r + pixels[i].g + pixels[i].b
  {
  }

  /** The module-level `model` variable and the loads made so far. */
  class ModelCache {
    var model: Option<GraphModel>
    var loads: nat

    /** No model is loaded when the module is first imported. */
    constructor()
      ensures model == None && loads == 0
    {
      model := None;
      loads := 0;
    }

    /** `loadModel`: a cached model is returned without loading again; otherwise
        a load is made, and its model cached on success. A failed load leaves
        the cache empty, so the next call tries again. */
    method LoadModel(outcome: LoadOutcome) returns (r: Result<GraphModel, string>)
      modifies this
      ensures old(model).Some? ==> r == Success(old(model).value) && model == old(model) && loads == old(loads)
      ensures old(model).None? ==> loads == old(loads) + 1
      ensures old(model).None? && outcome.Loaded? ==>
                r == Success(GraphModel(old(loads))) && model == Some(GraphModel(old(loads)))
      ensures old(model).None? && outcome.LoadRejected? ==>
                r == Failure(LoadErrorPrefix + outcome.reason + ")") && model == None
    {
      if model.Some? {
        return Success(model.value);
      }
      var attempt := loads;
      loads := loads + 1;
      match outcome
      case Loaded =>
        model := Some(GraphModel(attempt));
        r := Success(model.value);
      case LoadRejected(reason) =>
        r := Failure(LoadErrorPrefix + reason + ")");
    }

    /** `predictImage`: fails before any preprocessing when no model is loaded;
        otherwise the input tensor is disposed on every path, the prediction
        tensor only when the forward pass succeeds, and any failure inside the
        `try` is reported as one fixed message. */
    method PredictImage(pixels: seq<Pixel>, pass: ForwardPass) returns (r: Result<Prediction, string>, disposed: seq<Tensor>)
      requires |pixels| == FeatureLength
      requires pass.Scores? ==> |pass.scores| == |ClassNames|
      ensures model.None? ==> r == Failure(NotLoadedError) && disposed == []
      ensures model.Some? && pass.Throws? ==> r == Failure(AnalyzeError) && disposed == [InputTensor]
      ensures model.Some? && pass.Scores? ==>
                r == Success(Assemble(pass.scores, pixels)) && disposed == [PredsTensor, InputTensor]
      ensures r.Success? ==> |r.value.featureMaps[0].data| == FeatureLength
    {
      disposed := [];
      if model.None? {
        return Failure(NotLoadedError), disposed;
      }
      // try
      match pass {
        case Scores(scores) =>
          var classIndex := ArgMax(scores);
          var featureMaps := [FeatureMap(FeatureMapName, GrayscaleMeans(pixels))];
          disposed := disposed + [PredsTensor];
          r := Success(Prediction(ClassNames[classIndex], scores[classIndex], featureMaps));
        case Throws =>
          r := Failure(AnalyzeError);
      }
      // finally
      disposed := disposed + [InputTensor];
    }
  }
}
