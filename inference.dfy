/**
 * The inference pipeline: one object holding a preprocessor (input size as
 * given, scaling to [0,1] switched off because the network rescales by itself)
 * and a predictor, with a validation step for uploads and an image-info query.
 */
module Inference {
  import opened Wrappers
  import Preprocessing
  import CnnModel

  /** Why validate_image refuses an upload; the extension check comes first. */
  datatype ValidationError = InvalidFileType(allowed: seq<string>) | FileTooLarge(maxSize: int)

  /** The exception the pipeline's predict lets through: from loading the image, or from predict. */
  datatype PipelineError = LoadFailed(cause: Preprocessing.LoadError) | PredictFailed(reason: CnnModel.PredictError)

  /**
   * validate_image: (true, None) for an accepted upload; otherwise false and
   * the first failing check, extension before size.
   */
  function ValidateImage(filename: string, fileSize: int, allowed: seq<string>, maxSize: int)
    : (r: (bool, Option<ValidationError>))
    ensures r.0 <==> r.1.None?
    ensures !Preprocessing.ValidateExtension(filename, allowed) ==> r.1 == Some(InvalidFileType(allowed))
    ensures Preprocessing.ValidateExtension(filename, allowed) && fileSize > maxSize ==>
              r.1 == Some(FileTooLarge(maxSize))
    ensures Preprocessing.ValidateExtension(filename, allowed) && fileSize <= maxSize ==> r == (true, None)
  {
    if !Preprocessing.ValidateExtension(filename, allowed) then
      (false, Some(InvalidFileType(allowed)))
    else if !Preprocessing.ValidateFileSize(fileSize, maxSize) then
      (false, Some(FileTooLarge(maxSize)))
    else
      (true, None)
  }

  /**
   * An upload is accepted exactly when the text after its last '.' is an
   * allowed extension up to case and its size is at most the limit.
   */
  lemma ValidateImageMeaning(filename: string, fileSize: int, allowed: seq<string>, maxSize: int)
    ensures ValidateImage(filename, fileSize, allowed, maxSize).0 <==>
              (exists i :: Preprocessing.LastDotAt(filename, i) &&
                           Preprocessing.AllowedUpToCase(filename[i + 1..], allowed)) &&
              fileSize <= maxSize
  {
    Preprocessing.ValidateExtensionMeaning(filename, allowed);
  }

  /** A file of the wrong type is reported as such however large it is. */
  lemma WrongTypeReportedBeforeSize(filename: string, fileSize: int, allowed: seq<string>, maxSize: int)
    requires forall i :: Preprocessing.LastDotAt(filename, i) ==>
                           !Preprocessing.AllowedUpToCase(filename[i + 1..], allowed)
    ensures ValidateImage(filename, fileSize, allowed, maxSize) == (false, Some(InvalidFileType(allowed)))
  {
    Preprocessing.ValidateExtensionMeaning(filename, allowed);
  }

  /**
   * What the pipeline's predict returns: the load error if the image cannot
   * be loaded, else the predictor's answer for probabilities p ranked by order.
   */
  function PipelineAnswer(pre: Preprocessing.ImagePreprocessor, source: Preprocessing.ImageSource,
                          lib: Preprocessing.ImageLibrary, p: seq<real>, order: seq<nat>, topK: int,
                          classNames: seq<string>, isDemo: bool, threshold: real)
    : (r: Result<CnnModel.PredictionResult, PipelineError>)
    requires CnnModel.IsDescendingRanking(order, p)
    ensures r.Ok? <==> pre.Readable(source, lib) && CnnModel.Classify(p, order, topK, classNames, isDemo, threshold).Ok?
    ensures r.Ok? ==> r.value == CnnModel.Classify(p, order, topK, classNames, isDemo, threshold).value
    ensures pre.LoadImage(source, lib).Err? ==> r == Err(LoadFailed(pre.LoadImage(source, lib).error))
    ensures pre.LoadImage(source, lib).Ok? && !pre.Readable(source, lib) ==>
              r == Err(LoadFailed(Preprocessing.BrokenPixelData))
    ensures pre.Readable(source, lib) && r.Err? ==> r == Err(PredictFailed(CnnModel.IndexError))
  {
    match pre.Preprocess(source, lib)
    case Err(e) => Err(LoadFailed(e))
    case Ok(_) =>
      match CnnModel.Classify(p, order, topK, classNames, isDemo, threshold)
      case Err(e) => Err(PredictFailed(e))
      case Ok(res) => Ok(res)
  }

  class InferencePipeline {
    const preprocessor: Preprocessing.ImagePreprocessor
    const predictor: CnnModel.ModelPredictor

    /**
     * The preprocessor leaves values in [0,255]; the predictor is consistent,
     * and in demo mode it has classes to draw over.
     */
    ghost predicate Valid()
      reads this, predictor
    {
      !preprocessor.normalize && predictor.Valid() &&
      (predictor.demoMode ==> predictor.classNames != [])
    }

    /** __init__: a preprocessor without scaling, then a predictor built from the remaining arguments. */
    constructor (modelPath: Option<string>, inputSize: (Preprocessing.Dimension, Preprocessing.Dimension),
                 classNames: Option<seq<string>>, lowConfidenceThreshold: real, env: CnnModel.LoadEnvironment)
      ensures Valid()
      ensures preprocessor == Preprocessing.ImagePreprocessor(inputSize, false)
      ensures fresh(predictor)
      ensures predictor.modelPath == CnnModel.ModelPathArgument(modelPath)
      ensures predictor.lowConfidenceThreshold == lowConfidenceThreshold
      ensures predictor.State() ==
                CnnModel.AfterLoad(CnnModel.ModelPathArgument(modelPath), CnnModel.ClassNamesArgument(classNames), env)
    {
      preprocessor := Preprocessing.ImagePreprocessor(inputSize, false);
      predictor := new CnnModel.ModelPredictor(modelPath, classNames, lowConfidenceThreshold, env);
      CnnModel.SidecarOverridesOnlyWhenLoaded(
        CnnModel.ModelPathArgument(modelPath), CnnModel.ClassNamesArgument(classNames), env);
    }

    /** is_demo_mode, answered by the predictor. */
    predicate IsDemoMode()
      reads this, predictor
      requires Valid()
      ensures IsDemoMode() <==> predictor.demoMode
      ensures !IsDemoMode() ==> predictor.model.Some?
      ensures IsDemoMode() ==> predictor.classNames != []
    {
      predictor.IsDemoMode()
    }

    /**
     * predict: preprocess the image, then ask the predictor. `probabilities`
     * and `order` are the predictor's inputs as in ModelPredictor.Predict.
     */
    method Predict(source: Preprocessing.ImageSource, topK: int, lib: Preprocessing.ImageLibrary,
                   probabilities: seq<real>, order: seq<nat>)
      returns (r: Result<CnnModel.PredictionResult, PipelineError>)
      requires Valid()
      requires predictor.demoMode ==>
                 |probabilities| == |predictor.classNames| && CnnModel.IsSimplexPoint(probabilities)
      requires CnnModel.IsDescendingRanking(order, probabilities)
      ensures r == PipelineAnswer(preprocessor, source, lib, probabilities, order, topK,
                                  predictor.classNames, predictor.demoMode, predictor.lowConfidenceThreshold)
    {
      var preprocessed := preprocessor.Preprocess(source, lib);
      if preprocessed.Err? {
        return Err(LoadFailed(preprocessed.error));
      }
      var result := predictor.Predict(preprocessed.value, topK, probabilities, order);
      if result.Err? {
        return Err(PredictFailed(result.error));
      }
      r := Ok(result.value);
    }

    /** get_image_info: the info of the loaded image, before any resizing. */
    function GetImageInfo(source: Preprocessing.ImageSource, lib: Preprocessing.ImageLibrary)
      : (r: Result<Preprocessing.ImageInfo, Preprocessing.LoadError>)
      ensures r.Ok? <==> preprocessor.LoadImage(source, lib).Ok?
      ensures r.Err? ==> r.error == preprocessor.LoadImage(source, lib).error
      ensures r.Ok? ==> r.value == Preprocessing.GetImageInfo(preprocessor.LoadImage(source, lib).value)
      ensures r.Ok? ==>
                r.value.width == preprocessor.LoadImage(source, lib).value.width &&
                r.value.height == preprocessor.LoadImage(source, lib).value.height &&
                r.value.mode == preprocessor.LoadImage(source, lib).value.mode
    {
      match preprocessor.LoadImage(source, lib)
      case Err(e) => Err(e)
      case Ok(image) => Ok(Preprocessing.GetImageInfo(image))
    }
  }

  /**
   * In demo mode a decoded image whose pixel data reads and a positive top_k always give an answer:
   * the demo flag set, min(top_k, N) entries, confidence in [0,1].
   */
  lemma DemoPipelineAlwaysAnswers(pipeline: InferencePipeline, image: Preprocessing.Image,
                                  lib: Preprocessing.ImageLibrary, p: seq<real>, order: seq<nat>, topK: int)
    requires pipeline.Valid() && pipeline.predictor.demoMode && lib.pixelsLoad(image)
    requires |p| == |pipeline.predictor.classNames| && CnnModel.IsSimplexPoint(p)
    requires CnnModel.IsDescendingRanking(order, p) && topK >= 1
    ensures var r := PipelineAnswer(pipeline.preprocessor, Preprocessing.Decoded(image), lib, p, order, topK,
                                    pipeline.predictor.classNames, true,
                                    pipeline.predictor.lowConfidenceThreshold);
            r.Ok? && r.value.isDemo && 0.0 <= r.value.confidence <= 1.0 &&
            |r.value.topPredictions| == (if topK < |p| then topK else |p|)
  {
    CnnModel.DemoPredictionsAreWellFormed(pipeline.predictor, p, order, topK);
  }

  /**
   * The tensor the pipeline hands to the network is the unscaled one of
   * preprocess_for_model_with_rescaling: input_size in shape, values in [0,255].
   */
  lemma PipelineTensorIsUnscaled(pipeline: InferencePipeline, source: Preprocessing.ImageSource,
                                 lib: Preprocessing.ImageLibrary)
    requires pipeline.Valid()
    ensures pipeline.preprocessor.Preprocess(source, lib) ==
              pipeline.preprocessor.PreprocessForModelWithRescaling(source, lib)
    ensures var t := pipeline.preprocessor.Preprocess(source, lib);
            t.Ok? ==>
              Preprocessing.HasShape4(t.value, 1, pipeline.preprocessor.inputSize.1,
                                      pipeline.preprocessor.inputSize.0, 3) &&
              Preprocessing.Within4(t.value, 0.0, 255.0)
  {
    pipeline.preprocessor.RescalingVariantIsUnnormalized(source, lib);
  }

  /**
   * get_image_info describes the image as loaded: for a decoded image its own
   * size, whatever input size the pipeline resizes to for prediction.
   */
  lemma InfoReportsOriginalSize(pipeline: InferencePipeline, image: Preprocessing.Image,
                                lib: Preprocessing.ImageLibrary)
    ensures pipeline.GetImageInfo(Preprocessing.Decoded(image), lib) ==
              Ok(Preprocessing.GetImageInfo(image))
    ensures var info := pipeline.GetImageInfo(Preprocessing.Decoded(image), lib).value;
            info.width == image.width && info.height == image.height && info.format != ""
  {
  }

  /**
   * Opening reads only the header: an image whose pixel data is broken still
   * has its info reported, while predicting on it fails when resizing reads
   * the pixels.
   */
  lemma BrokenPixelsFailOnlyAtPredict(pipeline: InferencePipeline, source: Preprocessing.ImageSource,
                                      lib: Preprocessing.ImageLibrary, p: seq<real>, order: seq<nat>, topK: int)
    requires pipeline.preprocessor.LoadImage(source, lib).Ok?
    requires !lib.pixelsLoad(pipeline.preprocessor.LoadImage(source, lib).value)
    requires CnnModel.IsDescendingRanking(order, p)
    ensures pipeline.GetImageInfo(source, lib).Ok?
    ensures PipelineAnswer(pipeline.preprocessor, source, lib, p, order, topK, pipeline.predictor.classNames,
                           pipeline.predictor.demoMode, pipeline.predictor.lowConfidenceThreshold) ==
              Err(LoadFailed(Preprocessing.BrokenPixelData))
  {
  }
}
