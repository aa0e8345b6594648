# deepface: alignment and analysis decisions, in Dafny

A model of the discrete logic in `deepface/DeepFace.py`. The OpenCV cascades, PIL and the Keras
networks stay outside the model. What remains is covered as follows:

- **Cascade directory** (`get_opencv_path`). The path of the cv2 module is split on the OS
  separator and the file name is dropped. The folders are re-joined with `/` and `/data/` is
  appended. The call fails when the face cascade is not installed. It also fails when the path
  has no separator, because `folders[0]` then raises IndexError.
- **Eye alignment** (`detectFace`, lines 98-155):
  - The two widest eye boxes are chosen, and the one with the smaller x is the left eye.
  - Each eye centre is `int(x + w/2), int(y + h/2)`, truncated toward zero.
  - A third point is chosen with a rotation direction of -1 or 1.
  - The cosine-rule rotation runs only when the edges b and c are non-zero.
- **Face choice** (`detectFace`). Several checks come in order: the cascade path, then the
  image file, then the detector result. The face used is the first detection, or its
  re-detection after a rotation. When nothing is found, the whole image is used: for
  in-memory arrays, or when `enforce_detection` is off. Otherwise the call raises.
- **Response assembly** (`analyze`):
  - An empty action list defaults to `age, race`.
  - `age` contributes the apparent age. `race` contributes the six-label percentage map
    `100 * p_i / sum` and `dominant_race`, the label at numpy's first argmax.
  - A list input gives an object keyed `instance_1 … instance_n`. A single input gives its
    own response object.

Modules and files follow the parts of the source:

| file | module | models |
|---|---|---|
| wrappers.dfy | Wrappers | Result / Outcome for the exceptions raised |
| opencv_path.dfy | OpenCvPath | `get_opencv_path`, Python `str.split` and `str.join` |
| eye_alignment.dfy | EyeAlignment | eye selection, ordering, centres, third point, rotation guard |
| detection.dfy | Detection | `detectFace` decisions and the whole-image fallback |
| decimal.dfy | Decimal | `str()` of the instance number |
| analysis.dfy | Analysis | `analyze`: actions, race percentages, argmax, per-image and bulk responses |

How the external parts enter the model:

- **File checks.** `os.path.isfile` is a set `files` of existing paths.
- **Detector results.** The outputs of `detectMultiScale` are parameters. `faces` is the first
  face detection; the source turns an exception there into an empty list. `eyes` is the eye
  detection inside that face, and `redetected` is the face detection in the rotated image.
- **Image decoding.** `decodable` says whether `cv2.imread` decodes a path input. When it
  gives None, `img.copy()` at line 75 raises, which is the `UnreadableImage` error.
- **Whether the eye cascade loads.** The source checks only the face cascade (lines 37 and 59).
  A missing eye cascade leaves an empty classifier, and its `detectMultiScale` at line 96 raises
  outside any try. That is the `NoEyeDetector` error.
- **Per-image facts.** For each image, `analyze` sees three inputs in `ImageFacts`: the
  outcome of `detectFace`, the apparent age and the race prediction vector. That outcome is a
  free input: `Analysis` does not link it to `Detection.DetectFace` or to `analyze`'s
  `enforce_detection`, so the model admits facts such as `NoFace` for an array input that the
  source would never produce.
- **JSON.** The response text is not built. The model builds the decoded object, a `Value`
  map. Duplicate keys keep the last value, as `json.loads` does.
- **Unparsable responses.** The source writes `", "` before every action after the first, but
  only `age` and `race` write an entry. So an unsupported action among several leaves
  `{"age": 31, }`, which `json.loads` rejects. This is the `MalformedResponse` error and the
  predicate `ParsableResponse`.

## Model

| member | source | states |
|---|---|---|
| OpenCvPath.Split | deepface/DeepFace.py:28 | `str.split(os.path.sep)` gives at least one part, and no part contains the separator |
| OpenCvPath.JoinSplit | deepface/DeepFace.py:28-32 | re-joining the split parts with the same separator gives back the original path |
| OpenCvPath.SplitJoin | deepface/DeepFace.py:28-32 | joining separator-free parts and splitting again gives back exactly those parts |
| OpenCvPath.JoinSnoc | deepface/DeepFace.py:30-32 | one loop step, `path + "/" + folder`, is the join of one more folder |
| OpenCvPath.Join | deepface/DeepFace.py:30-32 | `"/".join` of the folders: empty for no parts, and it starts with the first part (followed by the separator when there are more) |
| OpenCvPath.SeparatorCount | deepface/DeepFace.py:28-30 | the folder list is non-empty exactly when the module path contains the separator |
| OpenCvPath.Folders | deepface/DeepFace.py:28 | `[0:-1]` keeps every split component except the last (the file name) |
| OpenCvPath.GetOpenCvPath | deepface/DeepFace.py:26-41 | the loop-built path is the folders joined by "/" plus "/data/"; the IndexError and missing-cascade errors are returned |
| OpenCvPath.DataPath | deepface/DeepFace.py:26-41 | a returned path ends in "/data/" and the face cascade under it exists; a missing-cascade error names a path that does not exist |
| OpenCvPath.DataPathCases | deepface/DeepFace.py:28-41 | fails with IndexError exactly when the separator is absent; succeeds exactly when the face cascade under the built path exists, otherwise names the missing path |
| OpenCvPath.DataPathIsSiblingDirectory | deepface/DeepFace.py:26-41 | with "/" as separator, the module path is dir + "/" + file and the result is dir + "/data/" |
| OpenCvPath.CascadeRecheckRedundant | deepface/DeepFace.py:55-61 | after `get_opencv_path` succeeds, detectFace's second isfile check on the face cascade always passes |
| EyeAlignment.LargestTwo | deepface/DeepFace.py:98-109 | for two or more eye boxes, returns two distinct indices: the widest box, and a widest among the rest; all other widths are at most both |
| EyeAlignment.SortedPrefixIsTopTwo | deepface/DeepFace.py:100-109 | the first two indices of any descending-by-width order of all boxes (any tie order) satisfy LargestTwo's contract |
| EyeAlignment.TopTwoWidthsUnique | deepface/DeepFace.py:107-109 | any two valid choices agree on the two widths, so ties only change which boxes are picked |
| EyeAlignment.OrderEyes | deepface/DeepFace.py:114-122 | the result is the selected pair in some order with left.x <= right.x; the original order is kept only when eye_1.x < eye_2.x |
| EyeAlignment.Truncate | deepface/DeepFace.py:127-131 | `int()` of a float truncates toward zero: the result is non-negative and within 1 below x for x >= 0, and non-positive and within 1 above x for x < 0 |
| EyeAlignment.Centre | deepface/DeepFace.py:127-131 | each centre coordinate is the truncation toward zero of x + w/2 (resp. y + h/2), within 1 of it on the side of zero |
| EyeAlignment.TruncateHalf | deepface/DeepFace.py:127-131 | `int(x + w / 2)` equals `x + w div 2` when 2x + w >= 0 |
| EyeAlignment.CentreOfDetectorBox | deepface/DeepFace.py:127-133 | for non-negative box fields the eye centre is (x + w div 2, y + h div 2) |
| EyeAlignment.ThirdPoint | deepface/DeepFace.py:138-143 | direction is -1 exactly when left_y > right_y, else 1; the point is (right_x, left_y) for -1 and (left_x, right_y) for 1 |
| EyeAlignment.SqDist | deepface/DeepFace.py:17-23 | the squared `distance` is non-negative and zero for equal points |
| EyeAlignment.SqDistZero | deepface/DeepFace.py:17-23 | the squared distance is non-negative and zero exactly when the points coincide, so `distance != 0` iff the squared distance is non-zero |
| EyeAlignment.RightAngleAtThirdPoint | deepface/DeepFace.py:138-150 | the third point makes a right angle: a² + b² = c² for the edges a, b, c of lines 148-150 |
| EyeAlignment.RotationAttempted | deepface/DeepFace.py:155 | `b != 0 and c != 0`: when it holds, the right centre differs from both the third point and the left centre |
| EyeAlignment.RotationAttemptedIff | deepface/DeepFace.py:148-155 | `b != 0 and c != 0` holds exactly when the left centre is lower or the two centres are in different columns |
| EyeAlignment.PlanAlignment | deepface/DeepFace.py:98-155 | skips alignment exactly when fewer than two eyes are found; otherwise combines the top-two pair, its left/right order, centres, third point and direction, and the rotation decision |
| Detection.NoFaceFallback | deepface/DeepFace.py:195-209 | with no face, the whole image is used iff the input is an array or detection is not enforced, otherwise "Face could not be detected" |
| Detection.AlignedFace | deepface/DeepFace.py:155-175 | the re-detected face replaces the first one exactly when a rotation was attempted and the re-detection found a face |
| Detection.DetectFace | deepface/DeepFace.py:44-209 | errors come in source order (cascade path, missing image file, undecodable image, missing eye cascade once a face is found, no face); a found face is the aligned face of faces[0] with an alignment plan of the eye boxes (top-two pair, left/right order, centres, third point, rotation), and the whole image is returned exactly as the fallback says |
| Decimal.NatToString | deepface/DeepFace.py:321 | `str(n)` is a non-empty string of decimal digits with no leading zero |
| Decimal.ParseNatToString | deepface/DeepFace.py:321 | reading the decimal digits of n back gives n |
| Decimal.NatToStringInjective | deepface/DeepFace.py:321 | different instance numbers have different decimal strings |
| Analysis.DefaultActions | deepface/DeepFace.py:223-224 | an empty action list becomes `['age', 'race']`; any other list is kept |
| Analysis.ModelsToLoad | deepface/DeepFace.py:229-241 | loads only models that a requested action needs and the caller did not pass; every needed model is passed or loaded |
| Analysis.Percentages | deepface/DeepFace.py:285-290 | one value per prediction, each `100 * p_i / sum` |
| Analysis.PercentagesSumToHundred | deepface/DeepFace.py:285-290 | the race percentages add up to exactly 100 |
| Analysis.FirstArgMax | deepface/DeepFace.py:297 | `np.argmax`: an index of a largest prediction, and every earlier prediction is strictly smaller |
| Analysis.FirstArgMaxUnique | deepface/DeepFace.py:297 | those two properties determine the index |
| Analysis.PercentageMonotone | deepface/DeepFace.py:290 | percentages keep the (strict) order of the predictions |
| Analysis.DominantRaceHasLargestPercentage | deepface/DeepFace.py:290-297 | the dominant race is also the first label with the largest percentage |
| Analysis.RaceDistribution | deepface/DeepFace.py:283-296 | the loop-built race object maps each of the six labels to its percentage and has no other key |
| Analysis.RaceFields | deepface/DeepFace.py:283-296 | the race object maps every one of the six labels to its percentage and holds no other key |
| Analysis.RaceFieldsKeys | deepface/DeepFace.py:283-296 | the race object has exactly the keys asian, indian, black, white, middle eastern, latino hispanic |
| Analysis.ResponseFields | deepface/DeepFace.py:265-301 | the response keys are `age` (if requested) together with `race` and `dominant_race` (if requested) |
| Analysis.ParsableResponse | deepface/DeepFace.py:258-305 | the assembled text parses when there is at most one action or every action is age or race, and does not parse when an unsupported action is among several |
| Analysis.ImageResponse | deepface/DeepFace.py:252-305 | detectFace's own error, unchanged, exactly when detectFace fails and some action needs it; otherwise the parse error exactly when the text does not parse; otherwise the keys of the requested actions, with the apparent age, the race object and the label at the first argmax |
| Analysis.ResponseKeys | deepface/DeepFace.py:268-299 | in a successful response each key is present exactly when its action is requested |
| Analysis.DefaultResponseKeys | deepface/DeepFace.py:223-299 | with the default actions and a detected face, the response has exactly age, race and dominant_race |
| Analysis.AnalyzeImage | deepface/DeepFace.py:252-305 | the action loop gives the reference response: the detection error if a face is needed and missing, the parse error for an unsupported action among several, otherwise the response object |
| Analysis.InstanceKeyInjective | deepface/DeepFace.py:321 | `"instance_" + str(k)` names distinct images with distinct keys |
| Analysis.InstanceKey | deepface/DeepFace.py:321 | the key is "instance_" followed by the decimal digits of k |
| Analysis.InstanceKeysCount | deepface/DeepFace.py:312-324 | the bulk object over n images has exactly n keys |
| Analysis.InstanceObject | deepface/DeepFace.py:313-322 | the loop-built bulk object has exactly the keys instance_1 … instance_n, with instance_{k+1} holding the k-th response |
| Analysis.Analyze | deepface/DeepFace.py:212-324 | a single input returns its response itself; a list returns `instance_{k+1}` → response of image k for every k, or the error of the first image that fails |

## Left out

- OpenCV cascade detection, `cv2.imread`, `cvtColor`, `resize` and PIL `rotate`: foreign library calls. The detector results are parameters, `imread` enters only as the `decodable` flag, and the pixels are not modelled.
- Exceptions that the eye detection (line 96), the re-detection after rotation (line 171), `cvtColor` (lines 91, 183, 200), `resize` (lines 185, 202) or PIL (lines 167-168) may raise for other reasons: out of the model. Only the missing eye cascade is modelled.
- The cosine rule, `arccos`, the degree conversion and `90 - angle` (lines 157-165), and `math.sqrt` in `distance`: floating-point numerics. Only the squared integer distances and the non-zero guard are modelled.
- Cropping `img[y:y+h, x:x+w]`: the model returns the chosen detector box, not the pixels.
- `Age.loadModel`, `Race.loadModel`, `model.predict` and `Age.findApparentAge`: neural-network inference and a module that is not part of this model. The apparent age and the prediction vector are inputs.
- Pixel normalisation, `img_to_array` and `expand_dims` (lines 187-192, 203-205), and the `grayscale` and `target_size` parameters: they change only pixels.
- tqdm progress bars and `print`: no effect on the result.
- The JSON text and its `json.loads` / `json.dumps` round trip. The decoded object is modelled directly, and parse failure is the predicate `ParsableResponse`. How `%s` prints a float and how it is read back are not modelled.
- Float64 rounding: the numbers are exact reals.
- Analysis.Analyze: requires a six-entry race vector with a positive sum wherever `race` is requested, because the source reads six entries (lines 288-290) and divides by their sum. The inf/nan that numpy gives for a zero sum, or NaN arguments to `argmax`, are not modelled.
- Analysis.AnalyzeImage: requires the same race vector shape as Analysis.Analyze.
- EyeAlignment.LargestTwo: the contract admits every choice among equal widths. It does not say which one pandas' unstable quicksort picks.
- Box coordinates are unbounded integers. The int32 range of numpy's detector output is not modelled.
- Non-string `actions` entries, a non-bool `enforce_detection` and input types other than an array or a path are not modelled.
