/**
 * The `POST /` upload handler (interior-design-backend/routes/uploadRoutes.js):
 * for each stored file, its URL, its analysis, and either the suggestions
 * for the confident, deduplicated detections, the colour-only fallback with
 * a warning, or the three generic suggestions with a warning; then the
 * reply, or a 400 when no file came and a 500 when a step threw.
 *
 * Multer's storage, the `Date.now()` prefix of the stored names, HTTP
 * itself and the logging are not modelled: a request is its list of stored
 * files (absent when Multer produced none), each with the picture and the
 * detection service's answers for it. The file path handed to the services
 * is `uploads/<filename>`, whose base name is the file name.
 */
module UploadRoute {
  import opened Wrappers
  import opened Seqs
  import opened ColorExtraction
  import opened Detections
  import opened ImageAnalysis
  import opened Suggestions

  /** A stored file: its name, its picture and what the detection service answers for it. */
  datatype Upload = Upload(filename: string, image: Image, responses: Script)

  datatype Warning = Warning(filename: string, message: string, suggestion: string)

  /** What one file adds to the reply: its suggestions and at most one warning. */
  datatype FileResult = FileResult(suggestions: seq<Suggestion>, warning: Option<Warning>)

  /** The three lists the loop builds. */
  datatype Batch = Batch(urls: seq<string>, suggestions: seq<Suggestion>, warnings: seq<Warning>)

  datatype Reply =
    | BadRequest(error: string)
    | ServerError(details: string)
    | Processed(message: string, filenames: seq<string>, urls: seq<string>,
                suggestions: seq<Suggestion>, warnings: Option<seq<Warning>>)
  {
    function Status(): nat {
      match this
      case BadRequest(_) => 400
      case ServerError(_) => 500
      case Processed(_, _, _, _, _) => 200
    }

    /** The `error` and `suggestion` fields of the 500 reply. */
    function ServerErrorFields(): (string, string)
      requires ServerError?
    {
      ("Internal server error", "Please try again. If the problem persists, the AI service may be temporarily unavailable.")
    }
  }

  function FileUrl(filename: string): string {
    "http://localhost:5000/uploads/" + filename
  }

  /** The route's own confidence filter. */
  predicate Confident(d: Detection) {
    d.score > 0.5
  }

  const FallbackSuggestion: string := "Color-based suggestions provided as fallback"
  const RetryLater: string := "Please try uploading the image again later"
  const SuccessMessage: string := "Files uploaded and processed successfully"
  const LimitedMessage: string := "Files uploaded with some processing limitations"

  /** The three generic suggestions given when the analysis failed completely. */
  function GenericSuggestions(filename: string): seq<Suggestion> {
    [Generic(filename, ColorTopic), Generic(filename, LightingTopic), Generic(filename, SpaceTopic)]
  }

  /**
   * The body of the loop as a function of one analysis result; an error is
   * what the step threw. The file gets a warning exactly when its analysis
   * reported an error; the warning names the file and carries that error.
   */
  function FileStep(u: Upload, analysis: Analysis): (r: Result<FileResult>)
    ensures r.Ok? ==> (r.value.warning.Some? <==> analysis.Error().Some?)
    ensures r.Ok? && r.value.warning.Some? ==>
      r.value.warning.value.filename == u.filename && Some(r.value.warning.value.message) == analysis.Error()
  {
    match analysis
    case Detected(items) =>
      var generated := GenerateSuggestions(Dedup(Filter(items, Confident)), u.filename, u.image);
      if generated.Err? then Err(generated.message) else Ok(FileResult(generated.value, None))
    case ColorOnly(_, objects) =>
      var generated := GenerateSuggestions(objects, u.filename, u.image);
      if generated.Err? then Err(generated.message)
      else Ok(FileResult(generated.value, Some(Warning(u.filename, analysis.Error().value, FallbackSuggestion))))
    case _ =>
      var suggestion := if analysis.Suggestion().Some? then analysis.Suggestion().value else RetryLater;
      Ok(FileResult(GenericSuggestions(u.filename), Some(Warning(u.filename, analysis.Error().value, suggestion))))
  }

  /** One file, analysed with the service's answers for it. */
  function ProcessFile(token: Option<string>, u: Upload): Result<FileResult> {
    FileStep(u, Analyze(token, u.responses, u.image).0)
  }

  function WarningsOf(r: FileResult): seq<Warning> {
    if r.warning.Some? then [r.warning.value] else []
  }

  /** The per-file step of the handler with a given token. */
  function StepWith(token: Option<string>): Upload -> Result<FileResult> {
    u => ProcessFile(token, u)
  }

  /** The loop over the files with the per-file step `step`, in order; the first step that throws ends it. */
  function ProcessAll(step: Upload -> Result<FileResult>, files: seq<Upload>): Result<Batch>
    decreases |files|
  {
    if files == [] then Ok(Batch([], [], []))
    else
      var u := files[|files| - 1];
      match ProcessAll(step, files[..|files| - 1])
      case Err(m) => Err(m)
      case Ok(b) =>
        match step(u)
        case Err(m) => Err(m)
        case Ok(r) => Ok(Batch(b.urls + [FileUrl(u.filename)], b.suggestions + r.suggestions, b.warnings + WarningsOf(r)))
  }

  function Filenames(files: seq<Upload>): (names: seq<string>)
    ensures |names| == |files| && forall i :: 0 <= i < |files| ==> names[i] == files[i].filename
  {
    seq(|files|, i requires 0 <= i < |files| => files[i].filename)
  }

  /** The specification of the handler: the reply to a request with the given stored files. */
  function Respond(token: Option<string>, files: Option<seq<Upload>>): Reply {
    if files.None? || |files.value| == 0 then BadRequest("No files uploaded")
    else
      match ProcessAll(StepWith(token), files.value)
      case Err(m) => ServerError(m)
      case Ok(b) =>
        if |b.warnings| > 0 then Processed(LimitedMessage, Filenames(files.value), b.urls, b.suggestions, Some(b.warnings))
        else Processed(SuccessMessage, Filenames(files.value), b.urls, b.suggestions, None)
  }

  /** A step that throws for a prefix of the files decides the reply to all of them. */
  lemma {:induction false} ProcessAllErrPrefix(step: Upload -> Result<FileResult>, files: seq<Upload>, n: nat)
    requires n <= |files| && ProcessAll(step, files[..n]).Err?
    ensures ProcessAll(step, files) == ProcessAll(step, files[..n])
    decreases |files| - n
  {
    if n < |files| {
      var p := files[..n + 1];
      assert p[..|p| - 1] == files[..n];
      ProcessAllErrPrefix(step, files, n + 1);
    } else {
      assert files[..n] == files;
    }
  }

  /** The loop over one more file. */
  lemma ProcessAllSnoc(step: Upload -> Result<FileResult>, files: seq<Upload>, n: nat)
    requires n < |files|
    ensures ProcessAll(step, files[..n + 1]) ==
      match ProcessAll(step, files[..n])
      case Err(m) => Err(m)
      case Ok(b) =>
        match step(files[n])
        case Err(m) => Err(m)
        case Ok(r) => Ok(Batch(b.urls + [FileUrl(files[n].filename)], b.suggestions + r.suggestions, b.warnings + WarningsOf(r)))
  {
    assert files[..n + 1][..n] == files[..n];
  }

  /**
   * The body of the loop for one file: analyse it, then build its
   * suggestions and warning as the analysis result calls for; an error
   * result is what the step threw.
   */
  method ProcessOne(token: Option<string>, file: Upload) returns (result: Result<FileResult>)
    ensures result == ProcessFile(token, file)
  {
    var analysis, _ := AnalyzeImage(token, file.responses, file.image);
    assert ProcessFile(token, file) == FileStep(file, analysis);
    if analysis.Error().Some? {
      if analysis.IsFallback() {
        var warning := Warning(file.filename, analysis.Error().value, FallbackSuggestion);
        var fallbackSuggestions := GenerateSuggestions(analysis.objects, file.filename, file.image);
        if fallbackSuggestions.Err? {
          return Err(fallbackSuggestions.message);
        }
        result := Ok(FileResult(fallbackSuggestions.value, Some(warning)));
      } else {
        var suggestion := if analysis.Suggestion().Some? then analysis.Suggestion().value else RetryLater;
        result := Ok(FileResult(GenericSuggestions(file.filename), Some(Warning(file.filename, analysis.Error().value, suggestion))));
      }
    } else {
      var detectedObjects := Filter(analysis.items, Confident);
      var uniqueObjects := RemoveDuplicateObjects(detectedObjects);
      var generatedSuggestions := GenerateSuggestions(uniqueObjects, file.filename, file.image);
      if generatedSuggestions.Err? {
        return Err(generatedSuggestions.message);
      }
      result := Ok(FileResult(generatedSuggestions.value, None));
    }
  }

  /** The handler: the 400 check, one loop iteration per file, then the reply. */
  method HandleUpload(token: Option<string>, files: Option<seq<Upload>>) returns (reply: Reply)
    ensures reply == Respond(token, files)
  {
    if files.None? || |files.value| == 0 {
      return BadRequest("No files uploaded");
    }
    var stored := files.value;
    var fileUrls: seq<string> := [];
    var designSuggestions: seq<Suggestion> := [];
    var warnings: seq<Warning> := [];
    for n := 0 to |stored|
      invariant ProcessAll(StepWith(token), stored[..n]) == Ok(Batch(fileUrls, designSuggestions, warnings))
    {
      var file := stored[n];
      ProcessAllSnoc(StepWith(token), stored, n);
      fileUrls := fileUrls + [FileUrl(file.filename)];
      var step := ProcessOne(token, file);
      if step.Err? {
        ProcessAllErrPrefix(StepWith(token), stored, n + 1);
        return ServerError(step.message);
      }
      designSuggestions := designSuggestions + step.value.suggestions;
      warnings := warnings + WarningsOf(step.value);
    }
    assert stored[..|stored|] == stored;
    if |warnings| > 0 {
      reply := Processed(LimitedMessage, Filenames(stored), fileUrls, designSuggestions, Some(warnings));
    } else {
      reply := Processed(SuccessMessage, Filenames(stored), fileUrls, designSuggestions, None);
    }
  }

  // ----- properties of the reply ------------------------------------------------

  lemma {:induction false} FlattenSingletons(ws: seq<seq<Warning>>, expected: seq<Warning>)
    requires |ws| == |expected| && forall i :: 0 <= i < |ws| ==> ws[i] == [expected[i]]
    ensures Flatten(ws) == expected
    decreases |ws|
  {
    if ws != [] {
      FlattenSingletons(ws[..|ws| - 1], expected[..|ws| - 1]);
      assert expected == expected[..|ws| - 1] + [expected[|ws| - 1]];
    }
  }

  /** The 400 reply is given exactly when no file came. */
  lemma BadRequestIffNoFiles(token: Option<string>, files: Option<seq<Upload>>)
    ensures Respond(token, files).BadRequest? <==> files.None? || files.value == []
    ensures Respond(token, files).BadRequest? ==> Respond(token, files) == BadRequest("No files uploaded")
    ensures Respond(token, files).Status() == 400 <==> files.None? || files.value == []
  {
  }

  /** Every stored file's step completed without throwing. */
  predicate AllOk(step: Upload -> Result<FileResult>, files: seq<Upload>) {
    forall i :: 0 <= i < |files| ==> step(files[i]).Ok?
  }

  function SuggestionLists(step: Upload -> Result<FileResult>, files: seq<Upload>): seq<seq<Suggestion>>
    requires AllOk(step, files)
  {
    seq(|files|, i requires 0 <= i < |files| => step(files[i]).value.suggestions)
  }

  function WarningLists(step: Upload -> Result<FileResult>, files: seq<Upload>): seq<seq<Warning>>
    requires AllOk(step, files)
  {
    seq(|files|, i requires 0 <= i < |files| => WarningsOf(step(files[i]).value))
  }

  /** The loop completes exactly when every file's step does. */
  lemma {:induction false} ProcessAllCompletes(step: Upload -> Result<FileResult>, files: seq<Upload>)
    ensures ProcessAll(step, files).Ok? <==> AllOk(step, files)
    decreases |files|
  {
    if files != [] {
      var p := files[..|files| - 1];
      ProcessAllCompletes(step, p);
      assert forall i :: 0 <= i < |p| ==> p[i] == files[i];
      assert AllOk(step, files) <==> AllOk(step, p) && step(files[|files| - 1]).Ok?;
    }
  }

  /** The per-file lists of a sequence end with those of its last file. */
  lemma ListsSnoc(step: Upload -> Result<FileResult>, files: seq<Upload>)
    requires |files| > 0 && AllOk(step, files)
    ensures AllOk(step, files[..|files| - 1])
    ensures var p, r := files[..|files| - 1], step(files[|files| - 1]).value;
      && SuggestionLists(step, files) == SuggestionLists(step, p) + [r.suggestions]
      && WarningLists(step, files) == WarningLists(step, p) + [WarningsOf(r)]
  {
    var p := files[..|files| - 1];
    assert forall i :: 0 <= i < |p| ==> p[i] == files[i];
  }

  /**
   * When every step completes, the loop's lists are one URL per file in
   * order, and the concatenation, in file order, of what each file
   * contributes.
   */
  lemma {:induction false} ProcessAllLists(step: Upload -> Result<FileResult>, files: seq<Upload>)
    requires AllOk(step, files)
    ensures ProcessAll(step, files).Ok?
    ensures var b := ProcessAll(step, files).value;
      && |b.urls| == |files|
      && (forall i :: 0 <= i < |files| ==> b.urls[i] == FileUrl(files[i].filename))
      && b.suggestions == Flatten(SuggestionLists(step, files))
      && b.warnings == Flatten(WarningLists(step, files))
    decreases |files|
  {
    if files != [] {
      var p := files[..|files| - 1];
      var u := files[|files| - 1];
      ListsSnoc(step, files);
      ProcessAllLists(step, p);
      var b := ProcessAll(step, p).value;
      var r := step(u).value;
      var urls := b.urls + [FileUrl(u.filename)];
      assert ProcessAll(step, files) == Ok(Batch(urls, b.suggestions + r.suggestions, b.warnings + WarningsOf(r)));
      assert forall i :: 0 <= i < |files| ==> urls[i] == FileUrl(files[i].filename) by {
        forall i | 0 <= i < |files| ensures urls[i] == FileUrl(files[i].filename) {
          if i < |p| {
            assert p[i] == files[i];
          }
        }
      }
      FlattenSnoc(SuggestionLists(step, p), r.suggestions);
      FlattenSnoc(WarningLists(step, p), WarningsOf(r));
    }
  }

  /** Both facts together: the loop completes exactly when every step does, and then its lists are as above. */
  lemma ProcessAllOk(step: Upload -> Result<FileResult>, files: seq<Upload>)
    ensures ProcessAll(step, files).Ok? <==> AllOk(step, files)
    ensures ProcessAll(step, files).Ok? ==>
      var b := ProcessAll(step, files).value;
      && |b.urls| == |files|
      && (forall i :: 0 <= i < |files| ==> b.urls[i] == FileUrl(files[i].filename))
      && b.suggestions == Flatten(SuggestionLists(step, files))
      && b.warnings == Flatten(WarningLists(step, files))
  {
    ProcessAllCompletes(step, files);
    if AllOk(step, files) {
      ProcessAllLists(step, files);
    }
  }

  /** When the loop throws, the error is that of the first file whose step throws. */
  lemma {:induction false} ProcessAllErr(step: Upload -> Result<FileResult>, files: seq<Upload>)
    requires ProcessAll(step, files).Err?
    ensures exists k :: (
      && 0 <= k < |files| && step(files[k]).Err? && AllOk(step, files[..k])
      && ProcessAll(step, files).message == step(files[k]).message)
    decreases |files|
  {
    var p := files[..|files| - 1];
    var u := files[|files| - 1];
    if ProcessAll(step, p).Err? {
      ProcessAllErr(step, p);
      var k :| 0 <= k < |p| && step(p[k]).Err? && AllOk(step, p[..k])
        && ProcessAll(step, p).message == step(p[k]).message;
      assert p[k] == files[k] && p[..k] == files[..k];
    } else {
      ProcessAllOk(step, p);
      assert files[..|files| - 1] == p;
    }
  }

  /**
   * What one file contributes when it has detections: the confident,
   * deduplicated detections go to `generateSuggestions`, whose single
   * suggestion for the file is the contribution, and there is no warning.
   */
  lemma DetectedContribution(u: Upload, items: seq<Detection>)
    requires FileStep(u, Detected(items)).Ok?
    ensures var g := GenerateSuggestions(Dedup(Filter(items, Confident)), u.filename, u.image);
      && g.Ok? && |g.value| == 1 && g.value[0].filename == u.filename
      && FileStep(u, Detected(items)) == Ok(FileResult(g.value, None))
  {
  }

  /**
   * The colour-only fallback: the placeholder objects go to
   * `generateSuggestions`, and the warning for the file carries the
   * analysis' error and the fallback note.
   */
  lemma ColorOnlyContribution(u: Upload, colors: Colors, objects: seq<Detection>)
    requires FileStep(u, ColorOnly(colors, objects)).Ok?
    ensures var g := GenerateSuggestions(objects, u.filename, u.image);
      && g.Ok? && |g.value| == 1 && g.value[0].filename == u.filename
      && FileStep(u, ColorOnly(colors, objects)) ==
           Ok(FileResult(g.value, Some(Warning(u.filename, ColorOnly(colors, objects).Error().value, FallbackSuggestion))))
  {
  }

  /**
   * A complete failure never throws: the file gets the three generic,
   * low-confidence suggestions (colour, lighting, space), and a warning
   * with the analysis' error and its own advice, or the retry note when it
   * has none.
   */
  lemma GenericContribution(u: Upload, a: Analysis)
    requires a.NotConfigured? || a.Failed?
    ensures var suggestion := if a.Suggestion().Some? then a.Suggestion().value else RetryLater;
      FileStep(u, a) == Ok(FileResult(GenericSuggestions(u.filename), Some(Warning(u.filename, a.Error().value, suggestion))))
    ensures var gs := GenericSuggestions(u.filename);
      && |gs| == 3
      && (forall s :: s in gs ==> s.filename == u.filename && s.Confidence() == Some("low"))
      && gs[0].topic == ColorTopic && gs[1].topic == LightingTopic && gs[2].topic == SpaceTopic
  {
  }

  /**
   * A successful reply names every file and its URL in order, and it
   * carries warnings (and the "limitations" message) exactly when some
   * file's analysis reported an error.
   */
  lemma ProcessedReply(token: Option<string>, files: Option<seq<Upload>>)
    requires Respond(token, files).Processed?
    ensures var fs := files.value;
      var reply := Respond(token, files);
      && |fs| > 0 && AllOk(StepWith(token), fs)
      && reply.filenames == Filenames(fs)
      && |reply.urls| == |fs|
      && (forall i :: 0 <= i < |fs| ==> reply.urls[i] == FileUrl(fs[i].filename))
      && reply.suggestions == Flatten(SuggestionLists(StepWith(token), fs))
      && (reply.warnings.Some? <==>
            exists i :: 0 <= i < |fs| && Analyze(token, fs[i].responses, fs[i].image).0.Error().Some?)
      && (reply.message == LimitedMessage <==> reply.warnings.Some?)
      && (reply.message == SuccessMessage <==> reply.warnings.None?)
  {
    var fs := files.value;
    ProcessAllOk(StepWith(token), fs);
    var ws := WarningLists(StepWith(token), fs);
    FlattenEmpty(ws);
    forall i | 0 <= i < |fs|
      ensures ws[i] != [] <==> Analyze(token, fs[i].responses, fs[i].image).0.Error().Some?
    {
      var r := FileStep(fs[i], Analyze(token, fs[i].responses, fs[i].image).0);
      assert r.Ok?;
    }
    assert |LimitedMessage| != |SuccessMessage|;
  }

  /** The 500 reply carries the error of the first file whose step threw. */
  lemma ServerErrorReply(token: Option<string>, files: Option<seq<Upload>>)
    requires Respond(token, files).ServerError?
    ensures var fs := files.value;
      exists k :: (
        && 0 <= k < |fs| && ProcessFile(token, fs[k]).Err? && AllOk(StepWith(token), fs[..k])
        && Respond(token, files).details == ProcessFile(token, fs[k]).message)
    ensures Respond(token, files).Status() == 500
    ensures Respond(token, files).ServerErrorFields() ==
      ("Internal server error", "Please try again. If the problem persists, the AI service may be temporarily unavailable.")
  {
    ProcessAllErr(StepWith(token), files.value);
  }

  /**
   * Without a token every file gets a warning pointing to the administrator
   * and the three generic suggestions, and the reply reports limitations.
   */
  lemma NoTokenReply(token: Option<string>, files: seq<Upload>)
    requires !Configured(token) && |files| > 0
    ensures var reply := Respond(token, Some(files));
      && reply.Processed? && reply.message == LimitedMessage
      && reply.suggestions == Flatten(seq(|files|, i requires 0 <= i < |files| => GenericSuggestions(files[i].filename)))
      && reply.warnings == Some(seq(|files|, i requires 0 <= i < |files| =>
           Warning(files[i].filename, "Hugging Face API token not configured", "Contact administrator to configure the AI service")))
  {
    var step := StepWith(token);
    forall i | 0 <= i < |files|
      ensures step(files[i]) == Ok(FileResult(GenericSuggestions(files[i].filename),
        Some(Warning(files[i].filename, "Hugging Face API token not configured", "Contact administrator to configure the AI service"))))
    {
      assert Analyze(token, files[i].responses, files[i].image).0 == NotConfigured;
    }
    ProcessAllOk(step, files);
    var ws := WarningLists(step, files);
    var expected := seq(|files|, i requires 0 <= i < |files| =>
      Warning(files[i].filename, "Hugging Face API token not configured", "Contact administrator to configure the AI service"));
    assert SuggestionLists(step, files) == seq(|files|, i requires 0 <= i < |files| => GenericSuggestions(files[i].filename));
    FlattenSingletons(ws, expected);
  }

  /** A step that throws after steps that did not decides the reply. */
  lemma ProcessAllFirstErr(step: Upload -> Result<FileResult>, files: seq<Upload>, k: nat)
    requires k < |files| && AllOk(step, files[..k]) && step(files[k]).Err?
    ensures ProcessAll(step, files) == Err(step(files[k]).message)
  {
    ProcessAllOk(step, files[..k]);
    assert forall i :: 0 <= i < k ==> files[..k][i] == files[i];
    ProcessAllSnoc(step, files, k);
    ProcessAllErrPrefix(step, files, k + 1);
  }

  /** A valid detection survives the route's confidence filter and the dedup, possibly as a better-scored twin. */
  lemma ValidSurvivesDedup(items: seq<Detection>, d: Detection)
    requires d in items && IsValid(d)
    ensures |ValidObjects(Dedup(Filter(items, Confident)))| > 0
  {
    var s := Filter(items, Confident);
    FilterProperties(items, Confident);
    var j :| 0 <= j < |s| && s[j] == d;
    DedupDominates(s, j);
    var i :| 0 <= i < |Dedup(s)| && Key(Dedup(s)[i]) == Key(s[j]) && s[j].score <= Dedup(s)[i].score;
    assert IsValid(Dedup(s)[i]);
    ValidObjectsNonEmpty(Dedup(s), Dedup(s)[i]);
  }

  /**
   * When the detections contain a valid object but the colours cannot be
   * extracted, building that file's suggestion throws, and the whole
   * request is answered with a 500 once the earlier files went through.
   */
  lemma ExtractionFailureAborts(token: Option<string>, files: seq<Upload>, k: nat, d: Detection)
    requires k < |files| && AllOk(StepWith(token), files[..k])
    requires Analyze(token, files[k].responses, files[k].image).0.Detected?
    requires d in Analyze(token, files[k].responses, files[k].image).0.items && IsValid(d)
    requires ExtractDominantColors(files[k].image).Err?
    ensures ProcessFile(token, files[k]) == Err(MissingDominantError)
    ensures Respond(token, Some(files)) == ServerError(MissingDominantError)
  {
    ValidSurvivesDedup(Analyze(token, files[k].responses, files[k].image).0.items, d);
    ProcessAllFirstErr(StepWith(token), files, k);
  }
}
