/**
 * `generateSuggestions` and `getSuggestionForObject`
 * (interior-design-backend/services/suggestionService.js).
 *
 * The source reads the picture through `extractDominantColors(filePath)`;
 * here the picture is a parameter. The file name is the `path.basename` of
 * the file path, which the caller passes directly.
 */
module Suggestions {
  import opened Wrappers
  import opened Seqs
  import opened Text
  import opened ColorUtils
  import opened ColorExtraction
  import opened Detections

  /** The furniture vocabulary. */
  const CommonObjects: seq<string> := ["chair", "table", "sofa", "couch", "lamp", "bed", "mirror", "rug"]

  const EmptyText: string := "No specific furniture detected. Try uploading a room image with furniture!"

  /**
   * The message of the `TypeError` raised when `generateComplementaryColors`
   * is called on the `dominant` field of the error object, which is
   * undefined.
   */
  const MissingDominantError: string := "Cannot read properties of undefined (reading 'slice')"

  /** A valid object as recorded in a suggestion: `{label, score}` (the box is dropped). */
  datatype Found = Found(name: string, score: real)

  /** The topic of a generic suggestion (`type`). */
  datatype Topic = ColorTopic | LightingTopic | SpaceTopic

  /** The fixed text of the generic suggestion on each topic. */
  function TopicText(topic: Topic): string {
    match topic
    case ColorTopic => "Consider adding warm colors like beige, cream, or soft pastels to create a welcoming atmosphere"
    case LightingTopic => "Good lighting is essential - consider adding table lamps or floor lamps for ambient lighting"
    case SpaceTopic => "Ensure furniture placement allows for easy movement and conversation flow"
  }

  /**
   * One element of the suggestion array of the response: the one built by
   * `generateSuggestions`, or one of the generic suggestions the upload
   * route adds when the analysis failed, whose text is fixed by its topic.
   */
  datatype Suggestion =
    | ObjectBased(filename: string, detectedObjects: seq<Found>, dominantColors: Option<Colors>,
                  colorPalette: Option<seq<string>>, text: string)
    | Generic(filename: string, topic: Topic)
  {
    /** The `confidence` field, which only the generic suggestions carry. */
    function Confidence(): Option<string> {
      if Generic? then Some("low") else None
    }
  }

  /** The filter of `generateSuggestions`: a furniture label (in any case) detected with a score above 0.5. */
  predicate IsValid(d: Detection) {
    Key(d) in CommonObjects && d.score > 0.5
  }

  function Project(d: Detection): Found {
    Found(d.name, d.score)
  }

  function ValidObjects(objs: seq<Detection>): seq<Found> {
    var kept := Filter(objs, IsValid);
    seq(|kept|, i requires 0 <= i < |kept| => Project(kept[i]))
  }

  /**
   * The valid objects are the projections of the input's valid detections,
   * and only those: each has a furniture label and a score above 0.5.
   */
  lemma ValidObjectsSpec(objs: seq<Detection>)
    ensures |ValidObjects(objs)| <= |objs|
    ensures forall d :: d in objs && IsValid(d) ==> Project(d) in ValidObjects(objs)
    ensures forall f :: f in ValidObjects(objs) ==>
      exists d :: d in objs && IsValid(d) && f == Project(d)
    ensures forall f :: f in ValidObjects(objs) ==> Lower(f.name) in CommonObjects && f.score > 0.5
  {
    var kept := Filter(objs, IsValid);
    FilterProperties(objs, IsValid);
    forall d | d in objs && IsValid(d) ensures Project(d) in ValidObjects(objs) {
      var i :| 0 <= i < |kept| && kept[i] == d;
      assert ValidObjects(objs)[i] == Project(d);
    }
    forall f | f in ValidObjects(objs) ensures exists d :: d in objs && IsValid(d) && f == Project(d) {
      var i :| 0 <= i < |kept| && ValidObjects(objs)[i] == f;
      assert kept[i] in kept;
    }
  }

  /** The filter and projection keep the input order: they distribute over concatenation. */
  lemma ValidObjectsConcat(a: seq<Detection>, b: seq<Detection>)
    ensures ValidObjects(a + b) == ValidObjects(a) + ValidObjects(b)
  {
    FilterConcat(a, b, IsValid);
  }

  /** One valid detection is enough for a non-empty list of valid objects. */
  lemma ValidObjectsNonEmpty(objs: seq<Detection>, d: Detection)
    requires d in objs && IsValid(d)
    ensures |ValidObjects(objs)| > 0
  {
    FilterProperties(objs, IsValid);
    assert d in Filter(objs, IsValid);
  }

  /** A detection outside the vocabulary or at most 0.5 does not change the valid objects. */
  lemma ValidObjectsIgnore(objs: seq<Detection>, d: Detection)
    requires !IsValid(d)
    ensures ValidObjects(objs + [d]) == ValidObjects(objs)
  {
    FilterConcat(objs, [d], IsValid);
    assert Filter([d], IsValid) == [];
    assert Filter(objs, IsValid) + [] == Filter(objs, IsValid);
  }

  /** The reducer of `validObjects.reduce`: the accumulated object only when it scores strictly higher. */
  function PickMax(max: Found, obj: Found): Found {
    if max.score > obj.score then max else obj
  }

  function Fold(acc: Found, s: seq<Found>): Found
    decreases |s|
  {
    if s == [] then acc else Fold(PickMax(acc, s[0]), s[1..])
  }

  /** The primary object: the reduce seeded with the first valid object. */
  function Primary(valid: seq<Found>): Found
    requires |valid| > 0
  {
    Fold(valid[0], valid)
  }

  /** Position `i` holds a highest score, and every later position a strictly lower one. */
  ghost predicate LastMaximumAt(s: seq<Found>, i: int)
    requires 0 <= i < |s|
  {
    && (forall j :: 0 <= j < |s| ==> s[j].score <= s[i].score)
    && (forall j :: i < j < |s| ==> s[j].score < s[i].score)
  }

  lemma {:induction false} FoldMaximum(acc: Found, s: seq<Found>)
    ensures || (Fold(acc, s) == acc && forall j :: 0 <= j < |s| ==> s[j].score < acc.score)
            || (exists i :: 0 <= i < |s| && Fold(acc, s) == s[i] && acc.score <= s[i].score && LastMaximumAt(s, i))
    decreases |s|
  {
    if s != [] {
      var t := s[1..];
      var acc' := PickMax(acc, s[0]);
      FoldMaximum(acc', t);
      assert forall j :: 0 < j < |s| ==> s[j] == t[j - 1];
      if Fold(acc', t) == acc' && forall j :: 0 <= j < |t| ==> t[j].score < acc'.score {
        if acc.score <= s[0].score {
          assert LastMaximumAt(s, 0);
        }
      } else {
        var i :| 0 <= i < |t| && Fold(acc', t) == t[i] && acc'.score <= t[i].score && LastMaximumAt(t, i);
        assert s[i + 1] == t[i];
        assert LastMaximumAt(s, i + 1);
      }
    }
  }

  /**
   * The primary object is a valid object with the highest score; on a tie
   * it is the last of the tied objects.
   */
  lemma PrimaryIsLastMaximum(valid: seq<Found>)
    requires |valid| > 0
    ensures exists i :: 0 <= i < |valid| && Primary(valid) == valid[i] && LastMaximumAt(valid, i)
  {
    FoldMaximum(valid[0], valid);
  }

  const CoffeeTableText: string := " Consider adding a matching coffee table in a modern minimalist style to complement the couch."
  const DeskText: string := " Consider adding a matching desk in a Scandinavian style to pair with the chair."
  const BedText: string := " Consider adding a matching decorative piece like a vase or artwork to enhance the room's aesthetic."
  const DecorativeText: string := " Consider adding a decorative piece like a vase or artwork to enhance the room's aesthetic."

  /** The extra sentence of `getSuggestionForObject`, chosen on the lower-cased label. */
  function GetSuggestionForObject(objectLabel: string): string {
    var key := Lower(objectLabel);
    if key == "sofa" || key == "couch" then CoffeeTableText
    else if key == "chair" then DeskText
    else if key == "bed" then BedText
    else DecorativeText
  }

  /** The sentence does not depend on the case of the label. */
  lemma SuggestionIgnoresCase(objectLabel: string)
    ensures GetSuggestionForObject(Lower(objectLabel)) == GetSuggestionForObject(objectLabel)
  {
    LowerIdempotent(objectLabel);
  }

  /**
   * The coffee-table sentence is given exactly to sofas and couches, in any
   * case; labels other than sofa, couch, chair and bed all share the
   * generic decorative sentence.
   */
  lemma SuggestionCases(objectLabel: string)
    ensures GetSuggestionForObject(objectLabel) == CoffeeTableText <==>
      Lower(objectLabel) == "sofa" || Lower(objectLabel) == "couch"
    ensures GetSuggestionForObject(objectLabel) == DeskText <==> Lower(objectLabel) == "chair"
    ensures GetSuggestionForObject(objectLabel) == BedText <==> Lower(objectLabel) == "bed"
    ensures Lower(objectLabel) !in ["sofa", "couch", "chair", "bed"] <==>
      GetSuggestionForObject(objectLabel) == DecorativeText
  {
    assert |CoffeeTableText| == 94 && |DeskText| == 80 && |BedText| == 100 && |DecorativeText| == 91;
  }

  /** The text of the object-based suggestion. */
  function DetectedText(valid: seq<Found>): string
    requires |valid| > 0
  {
    "Detected " + (NatToDecimal(|valid|) + " furniture items including " + Primary(valid).name + "."
                   + GetSuggestionForObject(Primary(valid).name))
  }

  /**
   * `generateSuggestions(detectedObjects, filePath)`: one suggestion. With
   * no valid object it is the "no furniture" suggestion, with the colours
   * when extraction succeeded; otherwise it names the count and the
   * primary object and carries the harmony set of the dominant colour,
   * which throws when extraction failed.
   */
  function GenerateSuggestions(detectedObjects: seq<Detection>, filename: string, image: Image): (r: Result<seq<Suggestion>>)
    ensures r.Err? <==> |ValidObjects(detectedObjects)| > 0 && ExtractDominantColors(image).Err?
    ensures r.Err? ==> r.message == MissingDominantError
    ensures r.Ok? ==> |r.value| == 1 && r.value[0].ObjectBased? && r.value[0].filename == filename
    ensures r.Ok? ==> r.value[0].detectedObjects == ValidObjects(detectedObjects)
    ensures r.Ok? ==> (r.value[0].dominantColors ==
      if ExtractDominantColors(image).Ok? then Some(ExtractDominantColors(image).value) else None)
    ensures r.Ok? && |ValidObjects(detectedObjects)| == 0 ==>
      r.value[0].text == EmptyText && r.value[0].colorPalette == None
    ensures r.Ok? && |ValidObjects(detectedObjects)| > 0 ==>
      && r.value[0].text == DetectedText(ValidObjects(detectedObjects))
      && r.value[0].colorPalette.Some?
      && |r.value[0].colorPalette.value| == 6
      && r.value[0].colorPalette.value[0] == ExtractDominantColors(image).value.dominant
  {
    var dominantColors := ExtractDominantColors(image);
    var colorsField := if dominantColors.Ok? then Some(dominantColors.value) else None;
    var valid := ValidObjects(detectedObjects);
    if |valid| == 0 then
      Ok([ObjectBased(filename, [], colorsField, None, EmptyText)])
    else if dominantColors.Err? then
      Err(MissingDominantError)
    else
      var dominant := dominantColors.value.dominant;
      assert HasHexChannels(dominant);
      Ok([ObjectBased(filename, valid, colorsField, Some(GenerateComplementaryColors(dominant)), DetectedText(valid))])
  }

  /**
   * The suggestion for detected furniture names how many valid objects
   * there are and a highest-scoring one, and its palette starts with the
   * dominant colour followed by five well-formed colours.
   */
  lemma DetectedSuggestionSpec(detectedObjects: seq<Detection>, filename: string, image: Image)
    requires |ValidObjects(detectedObjects)| > 0 && ExtractDominantColors(image).Ok?
    ensures GenerateSuggestions(detectedObjects, filename, image).value[0].text[..9] == "Detected "
    ensures var valid := ValidObjects(detectedObjects);
      exists i ::
        && 0 <= i < |valid| && Primary(valid) == valid[i] && LastMaximumAt(valid, i)
        && GenerateSuggestions(detectedObjects, filename, image).value[0].text ==
             "Detected " + (NatToDecimal(|valid|) + " furniture items including " + valid[i].name + "."
                            + GetSuggestionForObject(valid[i].name))
    ensures forall c :: c in GenerateSuggestions(detectedObjects, filename, image).value[0].colorPalette.value ==>
      IsLowerHexColor(c)
  {
    DetectedTextNames(ValidObjects(detectedObjects));
    DominantHarmony(ExtractDominantColors(image).value.dominant);
  }

  /** The detected-furniture text names the count and a last maximum-score object with its advice. */
  lemma DetectedTextNames(valid: seq<Found>)
    requires |valid| > 0
    ensures DetectedText(valid)[..9] == "Detected "
    ensures exists i ::
      && 0 <= i < |valid| && Primary(valid) == valid[i] && LastMaximumAt(valid, i)
      && DetectedText(valid) ==
           "Detected " + (NatToDecimal(|valid|) + " furniture items including " + valid[i].name + "."
                          + GetSuggestionForObject(valid[i].name))
  {
    PrimaryIsLastMaximum(valid);
    var i :| 0 <= i < |valid| && Primary(valid) == valid[i] && LastMaximumAt(valid, i);
    assert valid[i].name == Primary(valid).name;
  }

  /** The harmony set of a lower-case colour is made of lower-case colours only. */
  lemma DominantHarmony(dominant: string)
    requires IsLowerHexColor(dominant)
    ensures HasHexChannels(dominant)
    ensures forall c :: c in GenerateComplementaryColors(dominant) ==> IsLowerHexColor(c)
  {
    HarmonyWellFormed(dominant);
    var colors := GenerateComplementaryColors(dominant);
    assert forall i :: 0 <= i < 6 ==> IsLowerHexColor(colors[i]);
  }

  /**
   * The colour-only fallback passes the 0.3 placeholder, which is never
   * valid, so its suggestion is always the "no furniture" one with the
   * extracted colours.
   */
  lemma PlaceholderGivesEmptySuggestion(filename: string, image: Image, colors: Colors)
    requires ExtractDominantColors(image) == Ok(colors)
    ensures GenerateSuggestions([Detection("furniture", 0.3, Some(Box(0, 0, 100, 100)))], filename, image)
      == Ok([ObjectBased(filename, [], Some(colors), None, EmptyText)])
  {
    var d := Detection("furniture", 0.3, Some(Box(0, 0, 100, 100)));
    ValidObjectsIgnore([], d);
    assert [] + [d] == [d];
  }
}
