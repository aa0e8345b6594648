/**
 * The decisions of detectFace: where the cascades are, whether the image file exists,
 * which region becomes the face (the first detection, its re-detection after alignment,
 * or the whole image) and when a missing face is an error.
 */
module Detection {
  import opened Wrappers
  import opened OpenCvPath
  import opened EyeAlignment

  /** What detectFace was given: an image already in memory (a numpy array) or a file path. */
  datatype Input = ArrayImage | PathImage(path: string)

  datatype DetectError =
    | PathFailed(cause: PathError)  // raised inside get_opencv_path
    | MissingImage(path: string)    // "Confirm that <img> exists"
    | UnreadableImage(path: string) // cv2.imread gave None, so img.copy() raises AttributeError
    | NoEyeDetector                 // the eye cascade was never loaded, so its detectMultiScale raises
    | NoFace                        // "Face could not be detected ..."

  /** The image region that is resized and returned; the geometry and pixels are out of the model. */
  datatype Face =
    | Region(box: Box, alignment: Alignment, rotated: bool) // a detector box of the original or the rotated image
    | WholeImage

  /**
   * No face was detected: the whole image is used when it was passed as an array or when
   * detection is not enforced, and the call fails otherwise.
   */
  function NoFaceFallback(exactImage: bool, enforceDetection: bool): (r: Result<Face, DetectError>)
    ensures r.Success? <==> exactImage || !enforceDetection
    ensures r.Success? ==> r.value == WholeImage
    ensures r.Failure? ==> r.error == NoFace
  {
    if exactImage || !enforceDetection then Success(WholeImage) else Failure(NoFace)
  }

  /**
   * The face kept after alignment: the re-detection in the rotated image when a rotation was
   * attempted and found a face, otherwise the first detection.
   */
  function AlignedFace(first: Box, a: Alignment, redetected: seq<Box>): (f: Face)
    ensures f.Region? && f.alignment == a
    ensures f.rotated <==> a.Planned? && a.rotate && |redetected| > 0
    ensures f.box == if f.rotated then redetected[0] else first
  {
    if a.Planned? && a.rotate && |redetected| > 0 then Region(redetected[0], a, true)
    else Region(first, a, false)
  }

  /** The face cascade is installed, and a path input names a file that cv2.imread can decode. */
  predicate Ready(input: Input, home: string, sep: char, files: set<string>, decodable: bool)
  {
    DataPath(home, sep, files).Success? && (input.ArrayImage? || (input.path in files && decodable))
  }

  /** The eye cascade lies next to the face cascade; only the face cascade is checked by the source. */
  predicate EyeCascadeInstalled(home: string, sep: char, files: set<string>)
  {
    DataPath(home, sep, files).Success? && DataPath(home, sep, files).value + EyeCascade in files
  }

  /**
   * detectFace up to the region it returns. `files` are the paths os.path.isfile accepts;
   * `decodable` says whether cv2.imread decodes a path input; `faces` is what the face cascade
   * finds in the image (empty when it raised), `eyes` what the eye cascade finds in the first
   * face, `redetected` what the face cascade finds in the rotated image.
   */
  method DetectFace(input: Input, enforceDetection: bool, home: string, sep: char, files: set<string>,
                    decodable: bool, faces: seq<Box>, eyes: seq<Box>, redetected: seq<Box>)
    returns (r: Result<Face, DetectError>)
    ensures DataPath(home, sep, files).Failure? ==> r == Failure(PathFailed(DataPath(home, sep, files).error))
    ensures DataPath(home, sep, files).Success? && input.PathImage? && input.path !in files
            ==> r == Failure(MissingImage(input.path))
    ensures DataPath(home, sep, files).Success? && input.PathImage? && input.path in files && !decodable
            ==> r == Failure(UnreadableImage(input.path))
    ensures r == Failure(NoEyeDetector) <==>
              Ready(input, home, sep, files, decodable) && |faces| > 0 && !EyeCascadeInstalled(home, sep, files)
    ensures r == Failure(NoFace) <==>
              Ready(input, home, sep, files, decodable) && |faces| == 0 && input.PathImage? && enforceDetection
    ensures r == Success(WholeImage) <==>
              Ready(input, home, sep, files, decodable) && |faces| == 0 && (input.ArrayImage? || !enforceDetection)
    ensures Ready(input, home, sep, files, decodable) && |faces| > 0 && EyeCascadeInstalled(home, sep, files)
            ==> r.Success? && r.value.Region?
    ensures r.Success? && r.value.Region? ==>
              && |faces| > 0
              && IsPlan(eyes, r.value.alignment)
              && r.value == AlignedFace(faces[0], r.value.alignment, redetected)
  {
    var opencvPath := GetOpenCvPath(home, sep, files);
    if opencvPath.Failure? {
      return Failure(PathFailed(opencvPath.error));
    }
    var exactImage := input.ArrayImage?;
    if !exactImage {
      if input.path !in files {
        return Failure(MissingImage(input.path));
      }
      if !decodable {
        return Failure(UnreadableImage(input.path));
      }
    }
    if |faces| > 0 {
      if opencvPath.value + EyeCascade !in files {
        return Failure(NoEyeDetector);
      }
      var a := PlanAlignment(eyes);
      r := Success(AlignedFace(faces[0], a, redetected));
    } else {
      r := NoFaceFallback(exactImage, enforceDetection);
    }
  }
}
