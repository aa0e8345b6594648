/**
 * analyze: which actions run, the response object built for each image (apparent age,
 * race distribution in percent and the dominant race) and the "instance_<k>" object of a
 * bulk call. The neural networks are out of the model: for each image the apparent age, the
 * race prediction vector and the outcome of detectFace are inputs.
 */
module Analysis {
  import opened Wrappers
  import opened Decimal
  import Detection

  const Age := "age"
  const Race := "race"
  const DominantRace := "dominant_race"

  /** The six classes of the race model, in the order of its output vector. */
  const RaceLabels: seq<string> := ["asian", "indian", "black", "white", "middle eastern", "latino hispanic"]

  /** A decoded JSON value, as json.loads returns it. */
  datatype Value = Number(n: real) | Text(s: string) | Object(fields: map<string, Value>)

  /** What the external collaborators report for one image. */
  datatype ImageFacts = ImageFacts(detection: Outcome<Detection.DetectError>, apparentAge: real, racePredictions: seq<real>)

  /** img_path is either one image or a list of them (bulk processing). */
  datatype Request = Single(image: ImageFacts) | Bulk(images: seq<ImageFacts>)

  datatype AnalyzeError =
    | DetectionFailed(cause: Detection.DetectError) // raised by detectFace
    | MalformedResponse                             // json.loads rejects the assembled text

  /** An empty action list means every supported action. */
  function DefaultActions(actions: seq<string>): (r: seq<string>)
    ensures |actions| == 0 ==> r == [Age, Race]
    ensures |actions| != 0 ==> r == actions
    ensures |r| != 0
  {
    if |actions| == 0 then [Age, Race] else actions
  }

  /** The models analyze loads itself: the ones an action needs and the caller did not pass. */
  function ModelsToLoad(actions: seq<string>, passed: set<string>): (r: set<string>)
    ensures r !! passed
    ensures forall m :: m in r ==> m in actions && (m == Age || m == Race)
    ensures forall m :: (m == Age || m == Race) && m in actions ==> m in r || m in passed
  {
    (if Age in actions && Age !in passed then {Age} else {}) + (if Race in actions && Race !in passed then {Race} else {})
  }

  function Sum(s: seq<real>): real
  {
    if |s| == 0 then 0.0 else s[0] + Sum(s[1..])
  }

  /** A race model output that analyze can turn into percentages. */
  predicate WellShaped(preds: seq<real>)
  {
    |preds| == |RaceLabels| && Sum(preds) > 0.0
  }

  /** 100 * p_i / sum, over exact reals. */
  function Percentage(preds: seq<real>, i: nat): real
    requires i < |preds| && Sum(preds) != 0.0
  {
    100.0 * preds[i] / Sum(preds)
  }

  function Percentages(preds: seq<real>): (r: seq<real>)
    requires Sum(preds) != 0.0
    ensures |r| == |preds|
    ensures forall i :: 0 <= i < |preds| ==> r[i] == Percentage(preds, i)
  {
    seq(|preds|, i requires 0 <= i < |preds| => Percentage(preds, i))
  }

  lemma {:induction false} SumScaled(s: seq<real>, t: seq<real>, k: real)
    requires |t| == |s|
    requires forall i :: 0 <= i < |s| ==> t[i] == k * s[i]
    ensures Sum(t) == k * Sum(s)
  {
    if |s| > 0 {
      SumScaled(s[1..], t[1..], k);
    }
  }

  /** The race distribution of a response adds up to one hundred percent. */
  lemma PercentagesSumToHundred(preds: seq<real>)
    requires Sum(preds) != 0.0
    ensures Sum(Percentages(preds)) == 100.0
  {
    var total := Sum(preds);
    var k := 100.0 / total;
    var p := Percentages(preds);
    forall i | 0 <= i < |preds| ensures p[i] == k * preds[i] {
      assert p[i] == 100.0 * preds[i] / total;
    }
    SumScaled(preds, p, k);
  }

  /** numpy's argmax: the first index holding the largest value. */
  function FirstArgMax(s: seq<real>): (k: nat)
    requires |s| >= 1
    ensures k < |s|
    ensures forall j :: 0 <= j < |s| ==> s[j] <= s[k]
    ensures forall j :: 0 <= j < k ==> s[j] < s[k]
  {
    if |s| == 1 then 0
    else
      var k := FirstArgMax(s[..|s| - 1]);
      if s[|s| - 1] > s[k] then |s| - 1 else k
  }

  /** The first index of the largest value is determined by those two properties. */
  lemma FirstArgMaxUnique(s: seq<real>, k: nat)
    requires k < |s|
    requires forall j :: 0 <= j < |s| ==> s[j] <= s[k]
    requires forall j :: 0 <= j < k ==> s[j] < s[k]
    ensures FirstArgMax(s) == k
  {
  }

  lemma DivMonotone(a: real, b: real, t: real)
    requires t > 0.0
    ensures a <= b ==> a / t <= b / t
    ensures a < b ==> a / t < b / t
  {
    var q := b / t - a / t;
    assert q * t == b - a;
    if q < 0.0 {
      assert q * t < 0.0;
    }
    if q == 0.0 {
      assert q * t == 0.0;
    }
  }

  /** Percentages keep the order of the predictions they come from. */
  lemma PercentageMonotone(preds: seq<real>, i: nat, j: nat)
    requires i < |preds| && j < |preds| && Sum(preds) > 0.0
    ensures preds[i] <= preds[j] ==> Percentage(preds, i) <= Percentage(preds, j)
    ensures preds[i] < preds[j] ==> Percentage(preds, i) < Percentage(preds, j)
  {
    DivMonotone(100.0 * preds[i], 100.0 * preds[j], Sum(preds));
  }

  /** The dominant race is also the first label with the largest percentage. */
  lemma DominantRaceHasLargestPercentage(preds: seq<real>)
    requires |preds| >= 1 && Sum(preds) > 0.0
    ensures FirstArgMax(Percentages(preds)) == FirstArgMax(preds)
  {
    var p := Percentages(preds);
    var k := FirstArgMax(preds);
    forall j | 0 <= j < |preds| ensures p[j] <= p[k] && (j < k ==> p[j] < p[k]) {
      PercentageMonotone(preds, j, k);
    }
    FirstArgMaxUnique(p, k);
  }

  /** The "race" object: every label mapped to its percentage. */
  function RaceFields(preds: seq<real>): (m: map<string, Value>)
    requires WellShaped(preds)
    ensures forall i :: 0 <= i < |RaceLabels| ==> RaceLabels[i] in m && m[RaceLabels[i]] == Number(Percentage(preds, i))
    ensures forall l :: l in m ==> l in RaceLabels
  {
    map i | 0 <= i < |RaceLabels| :: RaceLabels[i] := Number(Percentage(preds, i))
  }

  /** The "race" object of lines 287-296, built label by label. */
  method RaceDistribution(preds: seq<real>) returns (race: map<string, Value>)
    requires WellShaped(preds)
    ensures forall i :: 0 <= i < |RaceLabels| ==> RaceLabels[i] in race && race[RaceLabels[i]] == Number(Percentage(preds, i))
    ensures forall l :: l in race ==> l in RaceLabels
    ensures race == RaceFields(preds)
  {
    var total := Sum(preds);
    race := map[];
    var i := 0;
    while i < |RaceLabels|
      invariant 0 <= i <= |RaceLabels|
      invariant forall l :: l in race ==> exists k :: 0 <= k < i && RaceLabels[k] == l
      invariant forall k :: 0 <= k < i ==> RaceLabels[k] in race && race[RaceLabels[k]] == Number(Percentage(preds, k))
    {
      race := race[RaceLabels[i] := Number(100.0 * preds[i] / total)];
      i := i + 1;
    }
  }

  /** The "race" object has exactly the six labels as keys. */
  lemma RaceFieldsKeys(preds: seq<real>)
    requires WellShaped(preds)
    ensures RaceFields(preds).Keys == {"asian", "indian", "black", "white", "middle eastern", "latino hispanic"}
    ensures |RaceFields(preds)| == 6
  {
    var m := RaceFields(preds);
    assert m.Keys == set i | 0 <= i < |RaceLabels| :: RaceLabels[i];
    assert RaceLabels[0] in m && RaceLabels[1] in m && RaceLabels[2] in m;
    assert RaceLabels[3] in m && RaceLabels[4] in m && RaceLabels[5] in m;
  }

  /** Whether some action needs the detected face (and so calls detectFace). */
  predicate Requested(actions: seq<string>)
  {
    Age in actions || Race in actions
  }

  /**
   * The text "{" + entries + "}" parses: every action writes a ", " separator after the first,
   * but only "age" and "race" write an entry, so an unsupported action among several leaves
   * an empty entry that json.loads rejects.
   */
  predicate ParsableResponse(actions: seq<string>)
    ensures |actions| <= 1 ==> ParsableResponse(actions)
    ensures (forall k :: 0 <= k < |actions| ==> actions[k] in [Age, Race]) ==> ParsableResponse(actions)
    ensures |actions| > 1 && (exists k :: 0 <= k < |actions| && actions[k] !in [Age, Race]) ==> !ParsableResponse(actions)
  {
    |actions| <= 1 || forall k :: 0 <= k < |actions| ==> actions[k] == Age || actions[k] == Race
  }

  /** The keys each supported action contributes to an image's response. */
  function ExpectedKeys(actions: seq<string>): set<string>
  {
    (if Age in actions then {Age} else {}) + (if Race in actions then {Race, DominantRace} else {})
  }

  /** The decoded response object of one image. */
  function ResponseFields(actions: seq<string>, f: ImageFacts): (m: map<string, Value>)
    requires Race in actions ==> WellShaped(f.racePredictions)
    ensures m.Keys == ExpectedKeys(actions)
  {
    var age := if Age in actions then map[Age := Number(f.apparentAge)] else map[];
    if Race in actions then
      age[Race := Object(RaceFields(f.racePredictions))]
         [DominantRace := Text(RaceLabels[FirstArgMax(f.racePredictions)])]
    else age
  }

  /** What analyze produces for one image: the detection error, a parse error or the response object. */
  function ImageResponse(actions: seq<string>, f: ImageFacts): (r: Result<map<string, Value>, AnalyzeError>)
    requires Race in actions ==> WellShaped(f.racePredictions)
    ensures r.Failure? && r.error.DetectionFailed? <==> f.detection.Fail? && Requested(actions)
    ensures r.Failure? && r.error.DetectionFailed? ==> r.error.cause == f.detection.error
    ensures r == Failure(MalformedResponse) <==> !(f.detection.Fail? && Requested(actions)) && !ParsableResponse(actions)
    ensures r.Success? ==> r.value.Keys == ExpectedKeys(actions)
    ensures r.Success? && Age in actions ==> r.value[Age] == Number(f.apparentAge)
    ensures r.Success? && Race in actions ==>
              && r.value[Race] == Object(RaceFields(f.racePredictions))
              && r.value[DominantRace] == Text(RaceLabels[FirstArgMax(f.racePredictions)])
  {
    if f.detection.Fail? && Requested(actions) then Failure(DetectionFailed(f.detection.error))
    else if !ParsableResponse(actions) then Failure(MalformedResponse)
    else Success(ResponseFields(actions, f))
  }

  /** The keys of a successful response are exactly those of the requested supported actions. */
  lemma ResponseKeys(actions: seq<string>, f: ImageFacts)
    requires Race in actions ==> WellShaped(f.racePredictions)
    requires ImageResponse(actions, f).Success?
    ensures Age in ImageResponse(actions, f).value <==> Age in actions
    ensures Race in ImageResponse(actions, f).value <==> Race in actions
    ensures DominantRace in ImageResponse(actions, f).value <==> Race in actions
    ensures |ImageResponse(actions, f).value| == |ExpectedKeys(actions)|
  {
  }

  /** With the default actions an image with a detected face gets all three keys. */
  lemma DefaultResponseKeys(f: ImageFacts)
    requires WellShaped(f.racePredictions) && f.detection.Pass?
    ensures ImageResponse(DefaultActions([]), f).Success?
    ensures ImageResponse(DefaultActions([]), f).value.Keys == {Age, Race, DominantRace}
  {
    var acts := DefaultActions([]);
    assert acts[0] == Age && acts[1] == Race;
  }

  /** The per-image loop of analyze (lines 252-305): one entry per action, detectFace at most once. */
  method AnalyzeImage(actions: seq<string>, f: ImageFacts) returns (r: Result<map<string, Value>, AnalyzeError>)
    requires Race in actions ==> WellShaped(f.racePredictions)
    ensures r == ImageResponse(actions, f)
  {
    var fields: map<string, Value> := map[];
    var detected := false;  // img_224 is not None
    var blank := false;     // some action wrote no entry between its separators
    var index := 0;
    while index < |actions|
      invariant 0 <= index <= |actions|
      invariant detected <==> Requested(actions[..index])
      invariant detected ==> f.detection.Pass?
      invariant blank <==> exists k :: 0 <= k < index && actions[k] != Age && actions[k] != Race
      invariant fields == ResponseFields(actions[..index], f)
    {
      var action := actions[index];
      assert actions[..index + 1] == actions[..index] + [action];
      if action == Age || action == Race {
        if !detected {
          if f.detection.Fail? {
            return Failure(DetectionFailed(f.detection.error));
          }
          detected := true;
        }
        if action == Age {
          fields := fields[Age := Number(f.apparentAge)];
        } else {
          var race := RaceDistribution(f.racePredictions);
          var dominant := FirstArgMax(f.racePredictions);
          fields := fields[Race := Object(race)][DominantRace := Text(RaceLabels[dominant])];
        }
      } else {
        blank := true;
      }
      index := index + 1;
    }
    assert actions[..index] == actions;
    if |actions| > 1 && blank {
      return Failure(MalformedResponse);
    }
    r := Success(fields);
  }

  /** The key of the k-th image of a bulk response. */
  function InstanceKey(k: nat): (key: string)
    ensures |key| > 9 && key[..9] == "instance_" && key[9..] == NatToString(k)
  {
    "instance_" + NatToString(k)
  }

  lemma InstanceKeyInjective(a: nat, b: nat)
    requires InstanceKey(a) == InstanceKey(b)
    ensures a == b
  {
    assert InstanceKey(a)[9..] == NatToString(a);
    assert InstanceKey(b)[9..] == NatToString(b);
    NatToStringInjective(a, b);
  }

  /** The keys instance_1 ... instance_n. */
  function InstanceKeys(n: nat): set<string>
  {
    set k | 1 <= k <= n :: InstanceKey(k)
  }

  /** A bulk response over n images has exactly n entries. */
  lemma {:induction false} InstanceKeysCount(n: nat)
    ensures |InstanceKeys(n)| == n
  {
    if n > 0 {
      InstanceKeysCount(n - 1);
      assert InstanceKeys(n) == InstanceKeys(n - 1) + {InstanceKey(n)};
      if InstanceKey(n) in InstanceKeys(n - 1) {
        var k :| 1 <= k <= n - 1 && InstanceKey(k) == InstanceKey(n);
        InstanceKeyInjective(k, n);
      }
    }
  }

  /** The object of lines 313-322: instance_<k> holds the k-th response. */
  method InstanceObject(responses: seq<map<string, Value>>) returns (fields: map<string, Value>)
    ensures fields.Keys == InstanceKeys(|responses|)
    ensures forall k :: 0 <= k < |responses| ==> fields[InstanceKey(k + 1)] == Object(responses[k])
  {
    fields := map[];
    var i := 0;
    while i < |responses|
      invariant 0 <= i <= |responses|
      invariant fields.Keys == InstanceKeys(i)
      invariant forall k :: 0 <= k < i ==> fields[InstanceKey(k + 1)] == Object(responses[k])
    {
      forall k: nat | 1 <= k <= i ensures InstanceKey(k) != InstanceKey(i + 1) {
        if InstanceKey(k) == InstanceKey(i + 1) {
          InstanceKeyInjective(k, i + 1);
        }
      }
      assert InstanceKeys(i + 1) == InstanceKeys(i) + {InstanceKey(i + 1)};
      fields := fields[InstanceKey(i + 1) := Object(responses[i])];
      i := i + 1;
    }
  }

  predicate ImagesShaped(actions: seq<string>, images: seq<ImageFacts>)
  {
    forall k :: 0 <= k < |images| ==> (Race in actions ==> WellShaped(images[k].racePredictions))
  }

  /**
   * analyze: a single image yields its response object itself; a list yields an object whose
   * key instance_<k> holds the response of the k-th image, or the error of the first image
   * that fails.
   */
  method Analyze(request: Request, actions: seq<string>) returns (r: Result<Value, AnalyzeError>)
    requires request.Single? ==> (Race in DefaultActions(actions) ==> WellShaped(request.image.racePredictions))
    requires request.Bulk? ==> ImagesShaped(DefaultActions(actions), request.images)
    ensures request.Single? ==>
              var single := ImageResponse(DefaultActions(actions), request.image);
              && (r.Success? <==> single.Success?)
              && (r.Success? ==> r.value == Object(single.value))
              && (r.Failure? ==> r.error == single.error)
    ensures request.Bulk? ==>
              (r.Success? <==> forall k :: 0 <= k < |request.images| ==>
                                 ImageResponse(DefaultActions(actions), request.images[k]).Success?)
    ensures request.Bulk? && r.Failure? ==>
              exists k :: 0 <= k < |request.images|
                       && ImageResponse(DefaultActions(actions), request.images[k]) == Failure(r.error)
                       && forall j :: 0 <= j < k ==> ImageResponse(DefaultActions(actions), request.images[j]).Success?
    ensures request.Bulk? && r.Success? ==>
              && r.value.Object?
              && r.value.fields.Keys == InstanceKeys(|request.images|)
              && forall k :: 0 <= k < |request.images| ==>
                   r.value.fields[InstanceKey(k + 1)] == Object(ImageResponse(DefaultActions(actions), request.images[k]).value)
  {
    var acts := DefaultActions(actions);
    if request.Single? {
      var single := AnalyzeImage(acts, request.image);
      if single.Failure? {
        return Failure(single.error);
      }
      return Success(Object(single.value));
    }
    var images := request.images;
    var responses: seq<map<string, Value>> := [];
    var j := 0;
    while j < |images|
      invariant 0 <= j <= |images| && |responses| == j
      invariant forall k :: 0 <= k < j ==> ImageResponse(acts, images[k]) == Success(responses[k])
    {
      var response := AnalyzeImage(acts, images[j]);
      if response.Failure? {
        return Failure(response.error);
      }
      responses := responses + [response.value];
      j := j + 1;
    }
    var fields := InstanceObject(responses);
    r := Success(Object(fields));
  }
}
