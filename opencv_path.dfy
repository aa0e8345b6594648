/**
 * The location of OpenCV's bundled Haar cascade files (get_opencv_path):
 * the directory of the cv2 module file, re-joined with "/", plus "/data/".
 */
module OpenCvPath {
  import opened Wrappers

  const FaceCascade := "haarcascade_frontalface_default.xml"
  const EyeCascade := "haarcascade_eye.xml"

  datatype PathError =
    | NoFolder                    // folders[0] of an empty list: IndexError
    | MissingCascade(path: string) // the face cascade file is not installed

  /** Python's str.split with a one-character separator: every occurrence splits, empty parts are kept. */
  function Split(s: string, sep: char): (parts: seq<string>)
    ensures |parts| >= 1
    ensures forall k :: 0 <= k < |parts| ==> sep !in parts[k]
    decreases |s|
  {
    if |s| == 0 then [""]
    else if s[0] == sep then [""] + Split(s[1..], sep)
    else
      var rest := Split(s[1..], sep);
      [[s[0]] + rest[0]] + rest[1..]
  }

  /** Python's sep.join(parts). */
  function Join(parts: seq<string>, sep: char): (r: string)
    ensures |parts| == 0 ==> r == ""
    ensures |parts| >= 1 ==> parts[0] <= r
    ensures |parts| >= 2 ==> parts[0] + [sep] <= r
  {
    if |parts| == 0 then ""
    else if |parts| == 1 then parts[0]
    else parts[0] + [sep] + Join(parts[1..], sep)
  }

  /** Appending one part to a non-empty list adds one separator and the part at the end. */
  lemma {:induction false} JoinSnoc(parts: seq<string>, last: string, sep: char)
    requires |parts| >= 1
    ensures Join(parts + [last], sep) == Join(parts, sep) + [sep] + last
  {
    if |parts| == 1 {
      assert parts + [last] == [parts[0], last];
    } else {
      assert (parts + [last])[1..] == parts[1..] + [last];
      JoinSnoc(parts[1..], last, sep);
    }
  }

  lemma {:induction false} JoinConsPrefix(c: char, first: string, rest: seq<string>, sep: char)
    ensures Join([[c] + first] + rest, sep) == [c] + Join([first] + rest, sep)
  {
    var a := [[c] + first] + rest;
    var b := [first] + rest;
    assert a[1..] == rest && b[1..] == rest;
  }

  /** Splitting and re-joining with the same separator gives back the string. */
  lemma {:induction false} JoinSplit(s: string, sep: char)
    ensures Join(Split(s, sep), sep) == s
    decreases |s|
  {
    if |s| == 0 {
    } else if s[0] == sep {
      var rest := Split(s[1..], sep);
      JoinSplit(s[1..], sep);
      assert ([""] + rest)[1..] == rest;
      assert s == [sep] + s[1..];
    } else {
      var rest := Split(s[1..], sep);
      JoinSplit(s[1..], sep);
      JoinConsPrefix(s[0], rest[0], rest[1..], sep);
      assert [rest[0]] + rest[1..] == rest;
      assert s == [s[0]] + s[1..];
    }
  }

  /** Joining parts that do not contain the separator and splitting again gives back the parts. */
  lemma {:induction false} SplitJoin(parts: seq<string>, sep: char)
    requires |parts| >= 1
    requires forall k :: 0 <= k < |parts| ==> sep !in parts[k]
    ensures Split(Join(parts, sep), sep) == parts
    decreases |parts|, |parts[0]|
  {
    if |parts[0]| == 0 {
      if |parts| == 1 {
      } else {
        var tail := parts[1..];
        SplitJoin(tail, sep);
        assert Join(parts, sep) == [sep] + Join(tail, sep);
        assert ([sep] + Join(tail, sep))[1..] == Join(tail, sep);
        assert parts == [""] + tail;
      }
    } else {
      var c := parts[0][0];
      assert c in parts[0];
      var shorter := [parts[0][1..]] + parts[1..];
      assert parts[0] == [c] + parts[0][1..];
      assert parts == [[c] + parts[0][1..]] + parts[1..];
      forall k | 0 <= k < |shorter| ensures sep !in shorter[k] {
        if k == 0 {
          assert forall ch :: ch in parts[0][1..] ==> ch in parts[0];
        } else {
          assert shorter[k] == parts[k];
        }
      }
      SplitJoin(shorter, sep);
      JoinConsPrefix(c, parts[0][1..], parts[1..], sep);
      var s := Join(parts, sep);
      assert s == [c] + Join(shorter, sep);
      assert s[1..] == Join(shorter, sep);
      assert Split(s[1..], sep) == shorter;
      assert [[c] + shorter[0]] + shorter[1..] == parts;
    }
  }

  /** The folders of the module path: every split component except the file name. */
  function Folders(home: string, sep: char): (folders: seq<string>)
    ensures |folders| == |Split(home, sep)| - 1
    ensures folders == Split(home, sep)[..|folders|]
  {
    var parts := Split(home, sep);
    parts[..|parts| - 1]
  }

  /** The value get_opencv_path computes: the folders joined by "/" followed by "/data/". */
  function DataPath(home: string, sep: char, files: set<string>): (r: Result<string, PathError>)
    ensures r.Success? ==> |r.value| >= 6 && r.value[|r.value| - 6..] == "/data/"
    ensures r.Success? ==> r.value + FaceCascade in files
    ensures r.Failure? && r.error.MissingCascade? ==> r.error.path !in files
  {
    var folders := Folders(home, sep);
    if |folders| == 0 then Failure(NoFolder)
    else
      var path := Join(folders, '/');
      if path + "/data/" + FaceCascade !in files then Failure(MissingCascade(path + "/data/" + FaceCascade))
      else Success(path + "/data/")
  }

  /**
   * get_opencv_path: `home` is cv2.__file__, `sep` is os.path.sep and `files` the set of
   * paths for which os.path.isfile holds. The path is built by the source's loop.
   */
  method GetOpenCvPath(home: string, sep: char, files: set<string>) returns (r: Result<string, PathError>)
    ensures r == DataPath(home, sep, files)
  {
    var folders := Folders(home, sep);
    if |folders| == 0 {
      return Failure(NoFolder);
    }
    var path := folders[0];
    var i := 1;
    while i < |folders|
      invariant 1 <= i <= |folders|
      invariant path == Join(folders[..i], '/')
    {
      JoinSnoc(folders[..i], folders[i], '/');
      assert folders[..i + 1] == folders[..i] + [folders[i]];
      path := path + ['/'] + folders[i];
      i := i + 1;
    }
    assert folders[..i] == folders;
    var facePath := path + "/data/" + FaceCascade;
    if facePath !in files {
      return Failure(MissingCascade(facePath));
    }
    r := Success(path + "/data/");
  }

  /** The error cases of get_opencv_path: no folder exactly when the separator is absent, otherwise a missing cascade. */
  lemma DataPathCases(home: string, sep: char, files: set<string>)
    ensures var r := DataPath(home, sep, files);
            && (r == Failure(NoFolder) <==> sep !in home)
            && (r.Success? <==> sep in home && Join(Folders(home, sep), '/') + "/data/" + FaceCascade in files)
            && (r.Success? ==> r.value == Join(Folders(home, sep), '/') + "/data/")
            && (r.Failure? && r.error.MissingCascade? ==> r.error.path !in files)
  {
    SeparatorCount(home, sep);
  }

  /** A string splits into more than one part exactly when it contains the separator. */
  lemma {:induction false} SeparatorCount(s: string, sep: char)
    ensures |Split(s, sep)| > 1 <==> sep in s
    decreases |s|
  {
    if |s| > 0 {
      SeparatorCount(s[1..], sep);
      assert s == [s[0]] + s[1..];
    }
  }

  /**
   * On a system whose separator is "/", the data path is the directory that holds the
   * module file followed by "/data/": the module path is that directory, "/" and a file name.
   */
  lemma DataPathIsSiblingDirectory(home: string, files: set<string>)
    requires DataPath(home, '/', files).Success?
    ensures exists dir, file :: '/' !in file && home == dir + "/" + file
                             && DataPath(home, '/', files).value == dir + "/data/"
  {
    var parts := Split(home, '/');
    var folders := Folders(home, '/');
    var file := parts[|parts| - 1];
    assert parts == folders + [file];
    JoinSnoc(folders, file, '/');
    JoinSplit(home, '/');
    var dir := Join(folders, '/');
    assert home == dir + "/" + file;
  }

  /**
   * detectFace appends the cascade file names to the data path and checks the face cascade
   * again; after get_opencv_path succeeded that second check always passes.
   */
  lemma CascadeRecheckRedundant(home: string, sep: char, files: set<string>)
    requires DataPath(home, sep, files).Success?
    ensures DataPath(home, sep, files).value + FaceCascade in files
  {
  }
}
