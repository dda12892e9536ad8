/**
 * `analyzeImage` (interior-design-backend/services/imageAnalysisService.js):
 * the token check, the warm-up requests, up to three detection requests
 * with a switch to the fallback model after a retryable first failure and
 * a linear back-off between attempts, and the colour-only fallback once
 * the attempts are over.
 *
 * The detection service is a parameter: `script[a - 1]` is what the
 * service answers to attempt `a`. Reading the file, the content type, the
 * warm-up's own answer (which the source ignores), the timeouts and the
 * clock are not modelled; the requests and waits the service would see are
 * recorded as events instead.
 */
module ImageAnalysis {
  import opened Wrappers
  import opened Seqs
  import opened Text
  import opened ColorExtraction
  import opened Detections

  const MaxRetries: nat := 3
  const RetryDelay: nat := 1000

  /** The primary model (DETR-50) and the fallback model (DETR-101). */
  datatype Endpoint = Primary | Fallback

  /** The body of an HTTP answer: a JSON array of detections, or anything else (including no body). */
  datatype Body = DetectionArray(items: seq<Detection>) | OtherBody

  /** What one detection request ends in: an HTTP answer, or an error with no answer (network, timeout). */
  datatype Response = Reply(status: nat, body: Body) | NoResponse(message: string)

  /** The service's answers to the three attempts. */
  type Script = s: seq<Response> | |s| == MaxRetries witness [NoResponse(""), NoResponse(""), NoResponse("")]

  /** How the loop treats an answer: return its detections, try again, or stop trying. */
  datatype Verdict = Accept(items: seq<Detection>) | Retryable(message: string) | Terminal(message: string)

  /** The message of the error the HTTP client raises for a status its `validateStatus` refuses. */
  function StatusMessage(status: nat): string {
    "Request failed with status code " + NatToDecimal(status)
  }

  /**
   * One answer as the loop body sees it. A 2xx or 503 status is accepted by
   * `validateStatus`; a 503 and a body that is not an array become plain
   * errors (no HTTP status attached), as does a network error. Any other
   * status is an HTTP error: 401, 403 and every other 4xx but 429 stop the
   * loop.
   */
  function Classify(r: Response): Verdict {
    match r
    case NoResponse(m) => Retryable(m)
    case Reply(status, body) =>
      if 200 <= status < 300 then
        (match body
         case DetectionArray(items) => Accept(items)
         case OtherBody => Retryable("Invalid response format from Hugging Face API"))
      else if status == 503 then Retryable("Service temporarily unavailable (503)")
      else if status == 401 || status == 403 then Terminal(StatusMessage(status))
      else if 400 <= status < 500 && status != 429 then Terminal(StatusMessage(status))
      else Retryable(StatusMessage(status))
  }

  /** An answer is accepted exactly when it is a 2xx answer whose body is an array. */
  lemma ClassifyAccept(r: Response)
    ensures Classify(r).Accept? <==> r.Reply? && 200 <= r.status < 300 && r.body.DetectionArray?
    ensures Classify(r).Accept? ==> Classify(r).items == r.body.items
  {
  }

  /** The loop stops early exactly on a client error other than 429. */
  lemma ClassifyTerminal(r: Response)
    ensures Classify(r).Terminal? <==> r.Reply? && 400 <= r.status < 500 && r.status != 429
  {
  }

  /** The token check: the variable is set and not empty. */
  predicate Configured(token: Option<string>) {
    token.Some? && token.value != ""
  }

  /** What the service and the clock see: a warm-up request, a detection request, a pause. */
  datatype Event = Warmup(endpoint: Endpoint) | Post(endpoint: Endpoint, attempt: nat) | Wait(ms: nat)

  predicate IsPost(e: Event) { e.Post? }
  predicate IsWait(e: Event) { e.Wait? }
  predicate IsWarmup(e: Event) { e.Warmup? }

  /** How the attempts ended: detections returned, or the last error seen when the loop was left. */
  datatype Outcome = Returned(items: seq<Detection>) | Exhausted(lastError: Option<string>)

  /**
   * The loop from attempt `attempt` on, with the current model `endpoint`
   * and the last error so far: how it ends and the events it causes.
   */
  function Run(script: Script, attempt: nat, endpoint: Endpoint, lastError: Option<string>): (Outcome, seq<Event>)
    requires 1 <= attempt
    decreases MaxRetries + 1 - attempt
  {
    if attempt > MaxRetries then (Exhausted(lastError), [])
    else
      var post := [Post(endpoint, attempt)];
      match Classify(script[attempt - 1])
      case Accept(items) => (Returned(items), post)
      case Terminal(m) => (Exhausted(Some(m)), post)
      case Retryable(m) =>
        var switch := attempt == 1 && endpoint == Primary;
        var next := if switch then Fallback else endpoint;
        var warm := if switch then [Warmup(Fallback)] else [];
        var pause := if attempt < MaxRetries then [Wait(RetryDelay * attempt)] else [];
        var rest := Run(script, attempt + 1, next, Some(m));
        (rest.0, post + warm + pause + rest.1)
  }

  /** The placeholder detection returned with the colour-only fallback. */
  const Placeholder: Detection := Detection("furniture", 0.3, Some(Box(0, 0, 100, 100)))

  /** The result of `analyzeImage`: the detections, or one of its three error objects. */
  datatype Analysis =
    | Detected(items: seq<Detection>)
    | NotConfigured
    | ColorOnly(colors: Colors, objects: seq<Detection>)
    | Failed(details: string)
  {
    /** The `fallback` flag. */
    predicate IsFallback() { ColorOnly? }

    /** The `error` field, present on every result but the detections. */
    function Error(): Option<string> {
      match this
      case Detected(_) => None
      case NotConfigured => Some("Hugging Face API token not configured")
      case ColorOnly(_, _) => Some("Object detection unavailable, using color analysis only")
      case Failed(_) => Some("Failed to analyze image after multiple attempts")
    }

    /** The `suggestion` field. */
    function Suggestion(): Option<string> {
      match this
      case NotConfigured => Some("Contact administrator to configure the AI service")
      case Failed(_) => Some("The AI service may be temporarily unavailable. Please try again later.")
      case _ => None
    }

    /** The `details` field. */
    function Details(): Option<string> {
      match this
      case NotConfigured => Some("Please set HF_API_TOKEN environment variable")
      case Failed(d) => Some(d)
      case _ => None
    }
  }

  /**
   * After the attempts: the colour information if extraction succeeds,
   * otherwise the failure carrying the last error's message.
   */
  function AfterRetries(image: Image, lastError: Option<string>): Analysis {
    match ExtractDominantColors(image)
    case Ok(colors) => ColorOnly(colors, [Placeholder])
    case Err(_) => Failed(if lastError.Some? && lastError.value != "" then lastError.value else "Unknown error")
  }

  function Finish(image: Image, o: Outcome): Analysis {
    match o
    case Returned(items) => Detected(items)
    case Exhausted(lastError) => AfterRetries(image, lastError)
  }

  /** The specification of `analyzeImage`: the result and the events, in order. */
  function Analyze(token: Option<string>, script: Script, image: Image): (Analysis, seq<Event>) {
    if !Configured(token) then (NotConfigured, [])
    else
      var run := Run(script, 1, Primary, None);
      (Finish(image, run.0), [Warmup(Primary)] + run.1)
  }

  /**
   * The step of the loop for a retryable answer: with the events of the
   * request, the switch to the fallback model and the pause appended, the
   * rest of the specification is the run from the next attempt.
   */
  lemma RetryKeepsRun(script: Script, attempt: nat, endpoint: Endpoint, lastError: Option<string>, m: string,
                      before: seq<Event>, after: seq<Event>, target: seq<Event>)
    requires 1 <= attempt <= MaxRetries && Classify(script[attempt - 1]) == Retryable(m)
    requires target == before + Run(script, attempt, endpoint, lastError).1
    requires var switch := attempt == 1 && endpoint == Primary;
      after == before + [Post(endpoint, attempt)] + (if switch then [Warmup(Fallback)] else [])
               + (if attempt < MaxRetries then [Wait(RetryDelay * attempt)] else [])
    ensures var next := if attempt == 1 && endpoint == Primary then Fallback else endpoint;
      var rest := Run(script, attempt + 1, next, Some(m));
      && Run(script, attempt, endpoint, lastError).0 == rest.0
      && target == after + rest.1
  {
    var switch := attempt == 1 && endpoint == Primary;
    var block := [Post(endpoint, attempt)] + (if switch then [Warmup(Fallback)] else [])
                 + (if attempt < MaxRetries then [Wait(RetryDelay * attempt)] else []);
    var rest := Run(script, attempt + 1, if switch then Fallback else endpoint, Some(m));
    RunRetryUnroll(script, attempt, endpoint, lastError, m);
    assert after == before + block;
    assert before + (block + rest.1) == (before + block) + rest.1;
  }

  /** One attempt whose answer is retryable, unrolled: its request, the switch, the pause, then the rest. */
  lemma RunRetryUnroll(script: Script, attempt: nat, endpoint: Endpoint, lastError: Option<string>, m: string)
    requires 1 <= attempt <= MaxRetries && Classify(script[attempt - 1]) == Retryable(m)
    ensures var switch := attempt == 1 && endpoint == Primary;
      var rest := Run(script, attempt + 1, if switch then Fallback else endpoint, Some(m));
      Run(script, attempt, endpoint, lastError) ==
        (rest.0, [Post(endpoint, attempt)] + (if switch then [Warmup(Fallback)] else [])
                 + (if attempt < MaxRetries then [Wait(RetryDelay * attempt)] else []) + rest.1)
  {
  }

  /** `analyzeImage`, one loop iteration per attempt. */
  method AnalyzeImage(token: Option<string>, script: Script, image: Image) returns (analysis: Analysis, events: seq<Event>)
    ensures (analysis, events) == Analyze(token, script, image)
  {
    if !Configured(token) {
      return NotConfigured, [];
    }
    var lastError: Option<string> := None;
    var currentEndpoint := Primary;
    events := [Warmup(Primary)];
    var attempt := 1;
    ghost var spec := Run(script, 1, Primary, None);
    while attempt <= MaxRetries
      invariant 1 <= attempt <= MaxRetries + 1
      invariant var run := Run(script, attempt, currentEndpoint, lastError);
        spec.0 == run.0 && [Warmup(Primary)] + spec.1 == events + run.1
      decreases MaxRetries + 1 - attempt
    {
      var verdict := Classify(script[attempt - 1]);
      ghost var before, endpoint0, lastError0 := events, currentEndpoint, lastError;
      events := events + [Post(currentEndpoint, attempt)];
      match verdict {
        case Accept(items) =>
          assert Run(script, attempt, endpoint0, lastError0) == (Returned(items), [Post(endpoint0, attempt)]);
          return Detected(items), events;
        case Terminal(m) =>
          assert Run(script, attempt, endpoint0, lastError0) == (Exhausted(Some(m)), [Post(endpoint0, attempt)]);
          lastError := Some(m);
          break;
        case Retryable(m) =>
          lastError := Some(m);
      }
      if attempt == 1 && currentEndpoint == Primary {
        currentEndpoint := Fallback;
        events := events + [Warmup(Fallback)];
      }
      if attempt < MaxRetries {
        events := events + [Wait(RetryDelay * attempt)];
      }
      RetryKeepsRun(script, attempt, endpoint0, lastError0, lastError.value, before, events, [Warmup(Primary)] + spec.1);
      attempt := attempt + 1;
    }
    assert events + [] == events;
    analysis := AfterRetries(image, lastError);
  }

  // ----- what the loop does, in closed form -------------------------------------

  /** The model attempt `attempt` is sent to: the primary model first, the fallback model after that. */
  function EndpointFor(attempt: nat): Endpoint {
    if attempt == 1 then Primary else Fallback
  }

  /**
   * The last attempt made when the loop reaches attempt `a`: the first one
   * from `a` on whose answer is not retryable, or the last attempt.
   */
  function Decisive(script: Script, a: nat): (d: nat)
    requires 1 <= a <= MaxRetries
    ensures a <= d <= MaxRetries
    ensures forall i :: a - 1 <= i < d - 1 ==> Classify(script[i]).Retryable?
    ensures d < MaxRetries ==> !Classify(script[d - 1]).Retryable?
    decreases MaxRetries - a
  {
    if a == MaxRetries || !Classify(script[a - 1]).Retryable? then a else Decisive(script, a + 1)
  }

  /** How the loop ends after the answer to its last attempt. */
  function Conclude(v: Verdict): Outcome {
    match v
    case Accept(items) => Returned(items)
    case Retryable(m) => Exhausted(Some(m))
    case Terminal(m) => Exhausted(Some(m))
  }

  /** A retryable answer before the last attempt: its request, the switch, the pause, then the next attempt. */
  lemma RunRetryStep(script: Script, a: nat, lastError: Option<string>)
    requires 1 <= a < MaxRetries && Classify(script[a - 1]).Retryable?
    ensures var run := Run(script, a, EndpointFor(a), lastError);
      var rest := Run(script, a + 1, EndpointFor(a + 1), Some(Classify(script[a - 1]).message));
      && run.0 == rest.0
      && run.1 == [Post(EndpointFor(a), a)] + (if a == 1 then [Warmup(Fallback)] else []) + [Wait(RetryDelay * a)] + rest.1
  {
  }

  /** The decisive attempt: its request only, and the outcome its answer decides. */
  lemma RunStopStep(script: Script, a: nat, lastError: Option<string>)
    requires 1 <= a <= MaxRetries && (a == MaxRetries || !Classify(script[a - 1]).Retryable?)
    ensures Run(script, a, EndpointFor(a), lastError) == (Conclude(Classify(script[a - 1])), [Post(EndpointFor(a), a)])
  {
    if Classify(script[a - 1]).Retryable? {
      var post: seq<Event> := [Post(EndpointFor(a), a)];
      assert Run(script, a + 1, EndpointFor(a), Some(Classify(script[a - 1]).message)).1 == [];
      assert post + [] + [] + [] == post;
    }
  }

  /** From attempt `a` on, the outcome is decided by the decisive attempt's answer alone. */
  lemma {:induction false} RunOutcome(script: Script, a: nat, lastError: Option<string>)
    requires 1 <= a <= MaxRetries
    ensures Run(script, a, EndpointFor(a), lastError).0 == Conclude(Classify(script[Decisive(script, a) - 1]))
    decreases MaxRetries - a
  {
    if a < MaxRetries && Classify(script[a - 1]).Retryable? {
      RunRetryStep(script, a, lastError);
      RunOutcome(script, a + 1, Some(Classify(script[a - 1]).message));
    } else {
      RunStopStep(script, a, lastError);
    }
  }

  /** From attempt `a` on: one request per attempt up to the decisive one, each to the model in use then. */
  lemma {:induction false} RunPosts(script: Script, a: nat, lastError: Option<string>)
    requires 1 <= a <= MaxRetries
    ensures var posts := Filter(Run(script, a, EndpointFor(a), lastError).1, IsPost);
      && |posts| == Decisive(script, a) - a + 1
      && forall i :: 0 <= i < |posts| ==> posts[i] == Post(EndpointFor(a + i), a + i)
    decreases MaxRetries - a
  {
    var post := [Post(EndpointFor(a), a)];
    assert Filter(post, IsPost) == post;
    if a < MaxRetries && Classify(script[a - 1]).Retryable? {
      var m := Classify(script[a - 1]).message;
      RunRetryStep(script, a, lastError);
      RunPosts(script, a + 1, Some(m));
      var warm := if a == 1 then [Warmup(Fallback)] else [];
      FilterOfBlock(post, warm, [Wait(RetryDelay * a)], Run(script, a + 1, EndpointFor(a + 1), Some(m)).1, IsPost);
    } else {
      RunStopStep(script, a, lastError);
    }
  }

  /** From attempt `a` on: a pause of `RetryDelay * i` after every attempt `i` before the decisive one. */
  lemma {:induction false} RunWaits(script: Script, a: nat, lastError: Option<string>)
    requires 1 <= a <= MaxRetries
    ensures var waits := Filter(Run(script, a, EndpointFor(a), lastError).1, IsWait);
      && |waits| == Decisive(script, a) - a
      && forall i :: 0 <= i < |waits| ==> waits[i] == Wait(RetryDelay * (a + i))
    decreases MaxRetries - a
  {
    var post := [Post(EndpointFor(a), a)];
    assert Filter(post, IsWait) == [];
    if a < MaxRetries && Classify(script[a - 1]).Retryable? {
      var m := Classify(script[a - 1]).message;
      RunRetryStep(script, a, lastError);
      RunWaits(script, a + 1, Some(m));
      var warm := if a == 1 then [Warmup(Fallback)] else [];
      assert Filter(warm, IsWait) == [];
      assert Filter([Wait(RetryDelay * a)], IsWait) == [Wait(RetryDelay * a)];
      FilterOfBlock(post, warm, [Wait(RetryDelay * a)], Run(script, a + 1, EndpointFor(a + 1), Some(m)).1, IsWait);
    } else {
      RunStopStep(script, a, lastError);
    }
  }

  /** From attempt `a` on: the fallback model is warmed up exactly when the first attempt is retried. */
  lemma {:induction false} RunWarmups(script: Script, a: nat, lastError: Option<string>)
    requires 1 <= a <= MaxRetries
    ensures Filter(Run(script, a, EndpointFor(a), lastError).1, IsWarmup) ==
      (if a == 1 && Decisive(script, a) > 1 then [Warmup(Fallback)] else [])
    decreases MaxRetries - a
  {
    var post := [Post(EndpointFor(a), a)];
    assert Filter(post, IsWarmup) == [];
    if a < MaxRetries && Classify(script[a - 1]).Retryable? {
      var m := Classify(script[a - 1]).message;
      RunRetryStep(script, a, lastError);
      RunWarmups(script, a + 1, Some(m));
      var warm := if a == 1 then [Warmup(Fallback)] else [];
      assert Filter(warm, IsWarmup) == warm;
      assert Filter([Wait(RetryDelay * a)], IsWarmup) == [];
      FilterOfBlock(post, warm, [Wait(RetryDelay * a)], Run(script, a + 1, EndpointFor(a + 1), Some(m)).1, IsWarmup);
    } else {
      RunStopStep(script, a, lastError);
    }
  }

  lemma FilterOfBlock(post: seq<Event>, warm: seq<Event>, pause: seq<Event>, rest: seq<Event>, q: Event -> bool)
    ensures Filter(post + warm + pause + rest, q) == Filter(post, q) + Filter(warm, q) + Filter(pause, q) + Filter(rest, q)
  {
    FilterConcat(post + warm + pause, rest, q);
    FilterConcat(post + warm, pause, q);
    FilterConcat(post, warm, q);
  }

  /** Without a token nothing is sent and the result is the configuration error. */
  lemma NotConfiguredSendsNothing(token: Option<string>, script: Script, image: Image)
    requires !Configured(token)
    ensures Analyze(token, script, image) == (NotConfigured, [])
    ensures Analyze(token, script, image).0.Error() == Some("Hugging Face API token not configured")
  {
  }

  /**
   * With a token: the primary model is warmed up first; one request per
   * attempt up to the decisive one, at most `MaxRetries`, the first to the
   * primary model and the others to the fallback model; the fallback model
   * is warmed up exactly when there is a second attempt; the pauses are
   * 1000 ms, 2000 ms, ...; and the result is the detections of an accepted
   * answer or, otherwise, the colour-only fallback or the failure.
   */
  lemma {:induction false} AnalyzeClosedForm(token: Option<string>, script: Script, image: Image)
    requires Configured(token)
    ensures 1 <= Decisive(script, 1) <= MaxRetries
    ensures Analyze(token, script, image).1[0] == Warmup(Primary)
    ensures var posts := Filter(Analyze(token, script, image).1, IsPost);
      && |posts| == Decisive(script, 1)
      && forall i :: 0 <= i < |posts| ==> posts[i] == Post(EndpointFor(i + 1), i + 1)
    ensures var waits := Filter(Analyze(token, script, image).1, IsWait);
      && |waits| == Decisive(script, 1) - 1
      && forall i :: 0 <= i < |waits| ==> waits[i] == Wait(RetryDelay * (i + 1))
    ensures Filter(Analyze(token, script, image).1, IsWarmup) ==
      [Warmup(Primary)] + (if Decisive(script, 1) > 1 then [Warmup(Fallback)] else [])
    ensures Analyze(token, script, image).0 ==
      match Classify(script[Decisive(script, 1) - 1])
      case Accept(items) => Detected(items)
      case Retryable(m) => AfterRetries(image, Some(m))
      case Terminal(m) => AfterRetries(image, Some(m))
  {
    AnalyzeEvents(token, script, image);
    AnalyzeResult(token, script, image);
  }

  /** The events of a call with a token, by kind. */
  lemma AnalyzeEvents(token: Option<string>, script: Script, image: Image)
    requires Configured(token)
    ensures Analyze(token, script, image).1[0] == Warmup(Primary)
    ensures var posts := Filter(Analyze(token, script, image).1, IsPost);
      && |posts| == Decisive(script, 1)
      && forall i :: 0 <= i < |posts| ==> posts[i] == Post(EndpointFor(i + 1), i + 1)
    ensures var waits := Filter(Analyze(token, script, image).1, IsWait);
      && |waits| == Decisive(script, 1) - 1
      && forall i :: 0 <= i < |waits| ==> waits[i] == Wait(RetryDelay * (i + 1))
    ensures Filter(Analyze(token, script, image).1, IsWarmup) ==
      [Warmup(Primary)] + (if Decisive(script, 1) > 1 then [Warmup(Fallback)] else [])
  {
    EventPosts(script);
    EventWaits(script);
    EventWarmups(script);
  }

  /** The result of a call with a token is decided by the decisive attempt's answer. */
  lemma AnalyzeResult(token: Option<string>, script: Script, image: Image)
    requires Configured(token)
    ensures Analyze(token, script, image).0 ==
      match Classify(script[Decisive(script, 1) - 1])
      case Accept(items) => Detected(items)
      case Retryable(m) => AfterRetries(image, Some(m))
      case Terminal(m) => AfterRetries(image, Some(m))
  {
    RunOutcome(script, 1, None);
    FinishOfConclude(image, Classify(script[Decisive(script, 1) - 1]));
  }

  /** The result once the loop's outcome is the conclusion of an answer. */
  lemma FinishOfConclude(image: Image, v: Verdict)
    ensures Finish(image, Conclude(v)) ==
      match v
      case Accept(items) => Detected(items)
      case Retryable(m) => AfterRetries(image, Some(m))
      case Terminal(m) => AfterRetries(image, Some(m))
  {
  }

  /** The requests of a whole call, with the primary model's warm-up in front. */
  lemma EventPosts(script: Script)
    ensures var posts := Filter([Warmup(Primary)] + Run(script, 1, Primary, None).1, IsPost);
      && |posts| == Decisive(script, 1)
      && forall i :: 0 <= i < |posts| ==> posts[i] == Post(EndpointFor(i + 1), i + 1)
  {
    var w := [Warmup(Primary)];
    RunPosts(script, 1, None);
    assert Filter(w, IsPost) == [];
    FilterConcat(w, Run(script, 1, Primary, None).1, IsPost);
  }

  /** The pauses of a whole call, with the primary model's warm-up in front. */
  lemma EventWaits(script: Script)
    ensures var waits := Filter([Warmup(Primary)] + Run(script, 1, Primary, None).1, IsWait);
      && |waits| == Decisive(script, 1) - 1
      && forall i :: 0 <= i < |waits| ==> waits[i] == Wait(RetryDelay * (i + 1))
  {
    var w := [Warmup(Primary)];
    RunWaits(script, 1, None);
    assert Filter(w, IsWait) == [];
    FilterConcat(w, Run(script, 1, Primary, None).1, IsWait);
  }

  /** The warm-ups of a whole call: the primary model's, then the fallback's exactly when there is a second attempt. */
  lemma EventWarmups(script: Script)
    ensures Filter([Warmup(Primary)] + Run(script, 1, Primary, None).1, IsWarmup) ==
      [Warmup(Primary)] + (if Decisive(script, 1) > 1 then [Warmup(Fallback)] else [])
  {
    var w := [Warmup(Primary)];
    RunWarmups(script, 1, None);
    assert Filter(w, IsWarmup) == w;
    FilterConcat(w, Run(script, 1, Primary, None).1, IsWarmup);
  }

  /** The milliseconds spent in the pauses among `events`. */
  function TotalWait(events: seq<Event>): nat
    decreases |events|
  {
    if events == [] then 0 else (if events[0].Wait? then events[0].ms else 0) + TotalWait(events[1..])
  }

  /** The pauses of one call add up to at most 1000 + 2000 ms. */
  lemma TotalWaitBound(token: Option<string>, script: Script, image: Image)
    ensures TotalWait(Filter(Analyze(token, script, image).1, IsWait)) <= RetryDelay * 3
  {
    if Configured(token) {
      AnalyzeClosedForm(token, script, image);
      var waits := Filter(Analyze(token, script, image).1, IsWait);
      if |waits| == 2 {
        assert waits[0] == Wait(RetryDelay) && waits[1] == Wait(RetryDelay * 2);
        assert waits[1..][0] == waits[1] && waits[1..][1..] == [];
        assert TotalWait(waits[1..]) == RetryDelay * 2;
      } else if |waits| == 1 {
        assert waits[1..] == [];
      }
    } else {
      assert Filter(Analyze(token, script, image).1, IsWait) == [];
    }
  }

  /**
   * A 401 or 403 answer to the first attempt stops the loop at once: one
   * request, no switch of model, no pause; and the colour-only fallback is
   * still tried afterwards.
   */
  lemma AuthErrorStopsAtOnce(token: Option<string>, script: Script, image: Image)
    requires Configured(token)
    requires script[0].Reply? && (script[0].status == 401 || script[0].status == 403)
    ensures var (analysis, events) := Analyze(token, script, image);
      && events == [Warmup(Primary), Post(Primary, 1)]
      && analysis == AfterRetries(image, Some(StatusMessage(script[0].status)))
  {
  }

  /**
   * A service that answers 503 every time gets three requests (the first
   * to the primary model, the other two to the fallback model), pauses of
   * 1000 ms and 2000 ms, and the result reports the 503 when the colours
   * cannot be extracted either.
   */
  lemma AlwaysUnavailable(token: Option<string>, script: Script, image: Image)
    requires Configured(token)
    requires forall i :: 0 <= i < MaxRetries ==> script[i].Reply? && script[i].status == 503
    ensures Analyze(token, script, image).1 ==
      [Warmup(Primary), Post(Primary, 1), Warmup(Fallback), Wait(1000), Post(Fallback, 2), Wait(2000), Post(Fallback, 3)]
    ensures Analyze(token, script, image).0 == AfterRetries(image, Some("Service temporarily unavailable (503)"))
    ensures ExtractDominantColors(image).Err? ==>
      Analyze(token, script, image).0.Details() == Some("Service temporarily unavailable (503)")
  {
    UnavailableEvents(token, script, image);
    UnavailableRun(script);
    AnalyzeOfRun(token, script, image);
    AfterRetriesCases(image, Some("Service temporarily unavailable (503)"));
  }

  /** The seven events of a call against a service that answers 503 every time. */
  lemma UnavailableEvents(token: Option<string>, script: Script, image: Image)
    requires Configured(token)
    requires forall i :: 0 <= i < MaxRetries ==> script[i].Reply? && script[i].status == 503
    ensures Analyze(token, script, image).1 ==
      [Warmup(Primary), Post(Primary, 1), Warmup(Fallback), Wait(1000), Post(Fallback, 2), Wait(2000), Post(Fallback, 3)]
  {
    UnavailableRun(script);
    AnalyzeOfRun(token, script, image);
    var attempts := [Post(Primary, 1), Warmup(Fallback), Wait(1000), Post(Fallback, 2), Wait(2000), Post(Fallback, 3)];
    assert [Warmup(Primary)] + attempts ==
      [Warmup(Primary), Post(Primary, 1), Warmup(Fallback), Wait(1000), Post(Fallback, 2), Wait(2000), Post(Fallback, 3)];
  }

  /** With a token, the result and events of a call in terms of the run from attempt 1. */
  lemma AnalyzeOfRun(token: Option<string>, script: Script, image: Image)
    requires Configured(token)
    ensures Analyze(token, script, image).0 == Finish(image, Run(script, 1, Primary, None).0)
    ensures Analyze(token, script, image).1 == [Warmup(Primary)] + Run(script, 1, Primary, None).1
  {
  }

  /** The attempts against a service that answers 503 every time. */
  lemma UnavailableRun(script: Script)
    requires forall i :: 0 <= i < MaxRetries ==> script[i].Reply? && script[i].status == 503
    ensures Run(script, 1, Primary, None) ==
      (Exhausted(Some("Service temporarily unavailable (503)")),
       [Post(Primary, 1), Warmup(Fallback), Wait(1000), Post(Fallback, 2), Wait(2000), Post(Fallback, 3)])
  {
    var m := "Service temporarily unavailable (503)";
    assert Classify(script[0]) == Retryable(m) && Classify(script[1]) == Retryable(m) && Classify(script[2]) == Retryable(m);
    RunRetryStep(script, 1, None);
    RunRetryStep(script, 2, Some(m));
    RunStopStep(script, 3, Some(m));
    var third: seq<Event> := [Post(Fallback, 3)];
    var second := [Post(Fallback, 2)] + [] + [Wait(2000)] + third;
    assert Run(script, 2, Fallback, Some(m)).1 == second;
    assert Run(script, 1, Primary, None).1 == [Post(Primary, 1)] + [Warmup(Fallback)] + [Wait(1000)] + second;
    assert Run(script, 1, Primary, None).0 == Exhausted(Some(m));
    assert Run(script, 1, Primary, None).1 == [Post(Primary, 1), Warmup(Fallback), Wait(1000), Post(Fallback, 2), Wait(2000), Post(Fallback, 3)];
  }

  /**
   * Once the attempts are over the result is the colour-only fallback
   * (with the single placeholder detection) exactly when the colours can
   * be extracted, and otherwise the failure with the last error's message,
   * or "Unknown error" when there is none.
   */
  lemma AfterRetriesCases(image: Image, lastError: Option<string>)
    ensures AfterRetries(image, lastError).ColorOnly? <==> ExtractDominantColors(image).Ok?
    ensures AfterRetries(image, lastError).IsFallback() ==>
      && AfterRetries(image, lastError).colors == ExtractDominantColors(image).value
      && AfterRetries(image, lastError).objects == [Placeholder]
    ensures !AfterRetries(image, lastError).IsFallback() ==>
      AfterRetries(image, lastError).Details() ==
        Some(if lastError.Some? && lastError.value != "" then lastError.value else "Unknown error")
    ensures AfterRetries(image, lastError).Error().Some?
  {
  }
}
