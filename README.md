# Classifier inference core in Dafny

This project models the inference core of the ATK (stationery) image
classifier. The classifier sorts photos into `eraser`, `kertas` and `pensil`.

- **Preprocessing** (`preprocessing.dfy`) models two things:
  - `ImageValidator`: the upload checks on file size and extension, and the info record of a decoded image.
  - `ImagePreprocessor`: load, resize to the configured `input_size`, force RGB, optionally scale by 1/255, and add a batch dimension of one.
- **CnnModel** (`cnn_model.dfy`) models `ModelPredictor`:
  - its construction, where `_load_model` decides once between a loaded model and demo mode and may take class names from a JSON sidecar;
  - `is_demo_mode` and `get_model_info`;
  - `predict`, which ranks a probability vector and builds the `PredictionResult`: the top class, its confidence and percentage, the top-k list, the demo flag and the low-confidence flag.
- **Inference** (`inference.dfy`) models `InferencePipeline`. It combines a preprocessor (with scaling switched off, since the network rescales itself) and a predictor. It adds upload validation, prediction from an image source, and image info.

Foreign code enters as parameters:
- **The image library.** Reading a file, decoding an image's header, reading its pixel data and Lanczos resampling are fields of an `ImageLibrary` value. Opening an image reads only its header. Broken pixel data surfaces only when resizing first reads the pixels, as an OSError.
- **The network's output.** In loaded mode the probability vector is a parameter of `Predict`.
- **The Dirichlet draw.** In demo mode the probability vector is likewise a parameter. The demo contracts require it to be a point of the probability simplex.
- **The argsort result.** `argsort(p)[::-1]` is also a parameter: any ordering of all indices by non-increasing probability, because the sort does not fix the order of ties. `ArgsortDescending` constructs one such ordering, which shows that one always exists.
- **The environment seen at construction.** Whether TensorFlow imported, whether the model file exists and loads, and what the sidecar holds form a `LoadEnvironment` value.

Python exceptions that the core lets through become `Err` values:
- `ValueError`, `FileNotFoundError` and `UnidentifiedImageError` from loading, and the `OSError` of broken pixel data from resizing;
- `IndexError` from `predict`, when the top-k slice is empty or a ranked index lies past the class list.

## Model

| member | source | states |
|---|---|---|
| Preprocessing.ValidateFileSize | models/preprocessing.py:141-152 | a file is accepted exactly when its size is at most the limit |
| Preprocessing.FileSizeLimitIsInclusive | models/preprocessing.py:141-152 | the size limit is inclusive: a file of exactly max_size passes, one byte more fails, and a passing size stays passing when it shrinks |
| Preprocessing.LastIndexOf | models/preprocessing.py:169 | the position found holds the character and no later position does; none is found exactly when the character is absent (the split point of rsplit('.', 1)) |
| Preprocessing.ValidateExtension | models/preprocessing.py:155-170 | a name is accepted exactly when it contains a '.' and the text after its last '.' equals an allowed extension up to case; an accepted name is non-empty and the allowed list is not empty |
| Preprocessing.ValidateExtensionMeaning | models/preprocessing.py:155-170 | a filename passes exactly when it has a last '.' and the text after that dot equals some allowed extension up to case |
| Preprocessing.LastDotIgnoresCase | models/preprocessing.py:169 | names that agree after lower-casing have their last '.' at the same position |
| Preprocessing.ExtensionCheckIgnoresFilenameCase | models/preprocessing.py:169-170 | filenames equal up to case are accepted or refused alike |
| Preprocessing.ExtensionCheckIgnoresAllowedCase | models/preprocessing.py:170 | lower-casing the allowed list first changes no verdict |
| Preprocessing.ExtensionOfJoinedName | models/preprocessing.py:166-170 | for base + "." + ext with a dot-free ext, the verdict is whether ext is allowed up to case, whatever the base holds |
| Preprocessing.UpperCaseExtensionAccepted | models/preprocessing.py:169-170 | "test_image.PNG" passes against ["jpg", "jpeg", "png", "bmp"] |
| Preprocessing.BareNameRefused | models/preprocessing.py:166-167 | every empty name and every name without '.' is refused, for every allowed list |
| Preprocessing.GetImageInfo | models/preprocessing.py:173-188 | width, height and mode are copied from the image; format is the image's own, or "Unknown" when it has none or an empty one, and is never empty |
| Preprocessing.RgbPixel | models/preprocessing.py:71-72 | convert('RGB') on one pixel yields three channels: RGB unchanged, RGBA without alpha, grey replicated into all three |
| Preprocessing.ConvertToRgb | models/preprocessing.py:71-72 | converting keeps the size, gives mode RGB, and maps each pixel by RgbPixel |
| Preprocessing.AsRgb | models/preprocessing.py:71-72 | the result is an RGB image of the same size; an image already in RGB is returned unchanged |
| Preprocessing.FloatArray | models/preprocessing.py:80 | np.array on an RGB image has shape (height, width, 3), and each value is the pixel's channel as a float in [0,255] |
| Preprocessing.ImagePreprocessor.Scaled | models/preprocessing.py:75-80 | a channel value becomes a float in [0,1] when normalize is set and in [0,255] otherwise, and multiplying back by the scale recovers the 8-bit value |
| Preprocessing.ImagePreprocessor.LoadImage | models/preprocessing.py:27-46 | a decoded image is returned as is; an unsupported source type is a ValueError; a missing file is FileNotFound; a readable file, raw bytes and a stream are each opened from their bytes, loading exactly when the library decodes them |
| Preprocessing.ImagePreprocessor.Open | models/preprocessing.py:40-44 | opening succeeds exactly when the header decodes, and yields that image; otherwise it raises UnidentifiedImageError |
| Preprocessing.ImagePreprocessor.ResizeImage | models/preprocessing.py:48-58 | the result has exactly input_size (width, height), both at least one, keeps the mode and is a well-formed pixel grid; the aspect ratio is not kept |
| Preprocessing.ImagePreprocessor.NormalizeImage | models/preprocessing.py:60-82 | the array has shape (height, width, 3) with values in [0, ceiling], and every value times the scale equals the channel of the RGB-converted image |
| Preprocessing.ImagePreprocessor.Preprocess | models/preprocessing.py:84-106 | succeeds exactly when the image loads and its pixel data reads; passes load errors through, and fails with the broken-pixel OSError otherwise; the tensor has shape (1, input height, input width, 3) and values in [0, ceiling] |
| Preprocessing.ImagePreprocessor.PreprocessForModelWithRescaling | models/preprocessing.py:108-134 | succeeds and fails exactly as preprocess does; the tensor has shape (1, input height, input width, 3) and values in [0,255] |
| Preprocessing.ImagePreprocessor.RescalingVariantIsUnnormalized | models/preprocessing.py:108-134 | preprocess_for_model_with_rescaling equals preprocess with normalize off, so its tensors have the same shape and values in [0,255] |
| Preprocessing.UnscaledIsFloatArray | models/preprocessing.py:75-80 | with normalize off, normalize_image is the plain float conversion of the RGB image |
| Preprocessing.ThreeChannelsForEveryMode | models/preprocessing.py:84-106 | for every colour mode, a decoded image whose pixel data reads preprocesses to three channels, each value (times the scale) being the RGB conversion of the resized pixel |
| CnnModel.RankingCoversEveryIndex | models/cnn_model.py:217 | argsort's output holds every index of the probability vector, so the ranking is a permutation |
| CnnModel.ArgsortDescending | models/cnn_model.py:217 | every probability vector admits a descending ranking: a permutation of its indices by non-increasing probability |
| CnnModel.SliceLength | models/cnn_model.py:217 | the length of order[:top_k] never exceeds the ranking's length, under Python slicing including negative top_k |
| CnnModel.Classify | models/cnn_model.py:216-239 | predict raises IndexError exactly when the top slice is empty or ranks an index past the class list; otherwise it lists one entry per ranked index, and the predicted class, confidence and percentage are those of the first entry, with percentage = confidence x 100 |
| CnnModel.TopCountIsCapped | models/cnn_model.py:217-229 | with one probability per class, predict fails exactly when top_k is 0, top_k is -N or less, or there are no classes; a positive top_k yields min(top_k, N) entries |
| CnnModel.TopPredictionsFollowRanking | models/cnn_model.py:219-226 | entry i names the class at rank i, carries its probability and that probability times 100; entries name distinct classes in non-increasing confidence |
| CnnModel.BestIsMaximum | models/cnn_model.py:228-235 | the predicted class is the first top entry, its confidence is the maximum probability, its percentage is confidence times 100 and its class is a known class name |
| CnnModel.SimplexConfidencesInUnitInterval | models/cnn_model.py:197-226 | for a Dirichlet draw, every confidence lies in [0,1] and every percentage in [0,100] |
| CnnModel.TopConfidencesSumAtMostOne | models/cnn_model.py:197-226 | for a Dirichlet draw the listed confidences add up to at most one, and to exactly one when top_k lists every class |
| CnnModel.FlagsOfResult | models/cnn_model.py:237-238 | is_low_confidence holds exactly when the confidence is strictly below the threshold, so a confidence equal to it is not low; is_demo is the predictor's mode |
| CnnModel.TopTenOfThreeClasses | models/cnn_model.py:217-226 | with the three default classes and top_k = 10, predict answers with exactly three entries |
| CnnModel.DefaultTopKListsEveryDefaultClass | models/cnn_model.py:200-226 | with the default top_k of 3 and the three default classes, predict lists all three classes, and for a demo draw their confidences sum to one |
| CnnModel.ModelPathArgument | models/cnn_model.py:124 | an empty model path counts as no path; any other path is kept |
| CnnModel.ClassNamesArgument | models/cnn_model.py:125 | a missing or empty class list falls back to the three defaults, otherwise the given list is kept; the result is never empty |
| CnnModel.AfterLoad | models/cnn_model.py:134-157 | a model is loaded exactly when TensorFlow is available, a path is given, the file exists and it deserializes, and then it is the model at that path; metadata is kept exactly when a model loaded and its sidecar was read, and is then the sidecar's record; demo mode keeps no metadata and the class names as given |
| CnnModel.DemoModeIff | models/cnn_model.py:134-157 | demo mode holds exactly when TensorFlow is missing, there is no path or no file, loading the model raises, or reading the sidecar raises; otherwise the model at the path is loaded |
| CnnModel.SidecarOverridesOnlyWhenLoaded | models/cnn_model.py:145-151 | class names change only when a model loaded and its sidecar has class_names, and then they become those names; in demo mode they are as given |
| CnnModel.ModelPredictor.constructor | models/cnn_model.py:110-132 | stores the normalized path and threshold and leaves the state _load_model computes from the arguments and the environment |
| CnnModel.ModelPredictor.LoadModel | models/cnn_model.py:134-157 | the new state is the one AfterLoad describes, and the path and threshold are untouched |
| CnnModel.ModelPredictor.IsDemoMode | models/cnn_model.py:177-184 | out of demo mode a model is loaded and there is a model path |
| CnnModel.ModelPredictor.GetModelInfo | models/cnn_model.py:159-175 | demo mode reports only mode "demo" and not loaded; otherwise mode "production", the path, the class names and their count, and the metadata exactly when it is a non-empty object |
| CnnModel.ModelPredictor.Predict | models/cnn_model.py:200-239 | the result is the ranking rule Classify applied to the probabilities, the predictor's class names, its mode and its threshold |
| CnnModel.DemoPredictionsAreWellFormed | models/cnn_model.py:211-226 | a demo predictor answers every positive top_k with the demo flag set, min(top_k, N) entries and a confidence in [0,1] |
| Inference.ValidateImage | models/inference.py:50-76 | the upload is valid exactly when no error is reported; a bad extension is reported as such, a size error only for a good extension, and a good extension within the limit gives (true, None) |
| Inference.ValidateImageMeaning | models/inference.py:69-76 | an upload is accepted exactly when the text after its last '.' is an allowed extension up to case and its size is at most the limit |
| Inference.WrongTypeReportedBeforeSize | models/inference.py:69-74 | a file of a disallowed type gets the invalid-type error, whatever its size |
| Inference.PipelineAnswer | models/inference.py:78-99 | the pipeline answers exactly when the image loads, its pixel data reads and the ranking rule answers, with the predictor's result; load errors come first, then the broken-pixel error, then IndexError |
| Inference.InferencePipeline.constructor | models/inference.py:21-44 | the preprocessor has the given input size and normalize off; the predictor is new and in the state its own construction computes |
| Inference.InferencePipeline.IsDemoMode | models/inference.py:46-48 | the pipeline is in demo mode exactly when its predictor is; otherwise a model is loaded |
| Inference.InferencePipeline.Predict | models/inference.py:78-99 | the result is PipelineAnswer for the image source and the predictor's state |
| Inference.InferencePipeline.GetImageInfo | models/inference.py:101-115 | succeeds exactly when the image loads, passes load errors through, and reports the validator's info record (size, format, mode) of the loaded image |
| Inference.DemoPipelineAlwaysAnswers | models/inference.py:93-99 | in demo mode a decoded image and a positive top_k always get an answer, flagged as demo, with min(top_k, N) entries and a confidence in [0,1] |
| Inference.PipelineTensorIsUnscaled | models/inference.py:37-38 | the pipeline's tensor equals the rescaling variant's: input_size in shape, values in [0,255] |
| Inference.BrokenPixelsFailOnlyAtPredict | models/inference.py:94-115 | an image whose header opens but whose pixel data is broken still gets its info reported, while predicting on it fails with the broken-pixel error |
| Inference.InfoReportsOriginalSize | models/inference.py:114-115 | image info reports the image's own size, not the input size it is resized to |

## Left out

- Model architecture, training and saving (`ATKClassifier.build_model`, the training script) are outside the inference core.
- Keras model loading and inference are left out. The network is represented by its output: the probability vector passed to `Predict`.
- CnnModel.ModelPredictor.Predict: in loaded mode the model does not tie the probability vector to the preprocessed image, because the network is foreign code.
- The Dirichlet sampling in `_generate_demo_predictions` is randomness. It becomes a parameter, required in demo mode to be non-negative, to sum to one and to have one entry per class.
- `np.argsort` is foreign code. Its output is a parameter constrained to be a descending ranking, and its tie order is not modelled.
- JSON parsing is left out. The sidecar is modelled as absent, unreadable, or an object with an optional `class_names` list and its other keys, which never include `class_names`. Sidecars whose top level is not an object, or whose `class_names` is not a list of strings, are not modelled.
- Filesystem checks (`Path.exists`, `with_suffix('.json')`) and pathlib's normalisation in `str(model_path)` are left out. The environment supplies their outcomes.
- Preprocessing.ImagePreprocessor.ResizeImage: the Lanczos filter is foreign code. Only the output size, the mode and the 8-bit range of the output are stated, not the pixel values.
- Image decoding (PIL `Image.open` and the later read of the pixel data) is foreign code, passed in as functions. Which files have broken pixel data is the library's decision. A `convert('RGB')` after a successful resize is taken not to fail. Only the modes L, LA, RGB and RGBA are modelled. PIL's conversion rules for other modes (P, CMYK, I, F and so on) are left out.
- Preprocessing.Lower: lower-casing covers ASCII letters only. Python's `str.lower` also folds non-ASCII letters.
- Tensors hold exact reals. float32 rounding of the division by 255 and of `probabilities * 100` is not modelled.
- The text of error messages, including the `max_mb` formatting in `validate_image`, is reduced to the error kind and its parameter.
- The printing of the load error in `_load_model` is I/O and is left out.
- Default arguments are named constants (`DefaultInputSize`, `DefaultNormalize`, `DefaultTopK`, `DefaultLowConfidenceThreshold`, `DefaultClassNames`), but every operation takes its arguments explicitly.
- The Streamlit UI, its components and pages, the configuration and the download script are outside the core.
