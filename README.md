# RoomVision backend core in Dafny

RoomVision takes room photographs and gives interior-design advice. The
backend handles one upload request at a time. For each image it asks a
hosted object-detection model (DETR-50, and DETR-101 as the fallback) what
furniture the photo shows. It measures the image's dominant colours. From
those two results it writes one suggestion per image. When detection fails,
it falls back to colour-only or generic advice.

This project models the core of that path and proves properties of it:

- `ColorUtils` (`color_utils.dfy`): `#rrggbb` encoding of byte triples, RGB to
  HSL conversion and back, and the six-entry harmony set. The set holds the
  base colour, its complement, two analogous colours and two triadic colours.
- `ColorExtraction` (`color_extraction.dfy`): the region and palette logic of
  `extractDominantColors`. The image library is an oracle: a decoded picture
  carries its size, its dominant colour, and the dominant colour (or error)
  of any region.
- `Detections` (`detections.dfy`): `removeDuplicateObjects`. It is an
  imperative loop over a label-keyed map, proved equal to the specification
  `Dedup`.
- `ImageAnalysis` (`image_analysis.dfy`): `analyzeImage`. It works through the
  retry loop over one answer per attempt (a `Script`). It records what the
  service and the clock see (warm-up requests, detection requests, pauses),
  then assembles the colour-only or failure result. It is a `while` loop,
  proved equal to the recursive specification `Analyze`. A closed form says
  how many requests and pauses occur, and to which model.
- `Suggestions` (`suggestions.dfy`): `generateSuggestions` and
  `getSuggestionForObject`.
- `UploadRoute` (`upload_route.dfy`): the loop of the `POST /` handler of the
  upload route and the reply it sends (400, 500, or 200 with or without
  warnings). It is a `for` loop, proved equal to the specification `Respond`.
- `Wrappers`, `Seqs` and `Text`: `Option`/`Result`, sequence helpers, and
  ASCII lower-casing and decimal printing.

The API token, the service's answers and the decoded image are inputs of
the model:

- the token is an `Option<string>`;
- the answers are one `Response` per attempt, with an HTTP status and a body,
  or no response at all;
- the image is an `Image`.

The model follows the code as written, including where the code departs
from what its comments and names suggest:

- After a 401 or 403 the loop stops, but the colour fallback still runs.
- `removeDuplicateObjects` does not sort its output. It returns the labels in
  order of first appearance.
- The records `generateSuggestions` builds have no `confidence` field. Only
  the generic records of the upload route carry one (`'low'`).
- The upload route passes `analysis.colors` as a third argument to
  `generateSuggestions`. The function has only two parameters, so the value
  is ignored. It re-extracts the colours itself.
- When furniture is detected but colour extraction fails,
  `generateSuggestions` throws, because the complementary colours are
  computed from an undefined dominant colour. The handler's catch then
  answers 500 for the whole batch.
- With an odd width or height, the four sampling regions leave the last
  column or row unsampled.

## Model

Paths are relative to the repository root.

| member | source | states |
|---|---|---|
| ColorUtils.HexDigit | interior-design-backend/utils/colorUtils.js:4 | A digit 0..15 prints as one lower-case hex digit whose value is that digit |
| ColorUtils.DigitOfValue | interior-design-backend/utils/colorUtils.js:4 | Printing the value of a lower-case hex digit gives the digit back |
| ColorUtils.NatToHex | interior-design-backend/utils/colorUtils.js:4 | `toString(16)` of a natural is a non-empty string of lower-case hex digits, one digit long exactly when the number is below 16 |
| ColorUtils.ParseHexOfNatToHex | interior-design-backend/utils/colorUtils.js:72-74 | Base-16 parsing inverts base-16 printing |
| ColorUtils.NatToHexSnoc | interior-design-backend/utils/colorUtils.js:4 | Printing 16a+d appends the digit d to the printing of a |
| ColorUtils.ChannelToHexOfByte | interior-design-backend/utils/colorUtils.js:3-6 | The padded channel text of a byte is its two-digit hex pair |
| ColorUtils.RgbToHexOfBytes | interior-design-backend/utils/colorUtils.js:2-7 | `rgbToHex` of a byte triple is `#` followed by the three two-digit pairs, a lower-case `#rrggbb` colour |
| ColorUtils.JoinBytes | interior-design-backend/utils/colorUtils.js:3-6 | Mapping the padded printing over three bytes and joining gives their three hex pairs in order |
| ColorUtils.ParseHexPair | interior-design-backend/utils/colorUtils.js:72-74 | Parsing a byte's hex pair gives the byte |
| ColorUtils.HexPairOfParse | interior-design-backend/utils/colorUtils.js:72-74 | A two-digit lower-case hex string parses to a byte whose pair is that string |
| ColorUtils.RgbToHexRoundTrip | interior-design-backend/utils/colorUtils.js:2-7 | Parsing slices [1,3), [3,5) and [5,7) of an encoding gives back the three channels |
| ColorUtils.RgbToHexInjective | interior-design-backend/utils/colorUtils.js:2-7 | Different byte triples have different encodings |
| ColorUtils.NatToHexSnocPair | interior-design-backend/utils/colorUtils.js:82-84 | Printing 256a+x appends the hex pair of x to the printing of a |
| ColorUtils.NatToHexSnocPairs | interior-design-backend/utils/colorUtils.js:82-84 | Printing a number shifted left by three bytes appends the three hex pairs of those bytes |
| ColorUtils.PackedDigits | interior-design-backend/utils/colorUtils.js:82-84 | `((1 << 24) + (r << 16) + (g << 8) + b).toString(16)` is `1` followed by the three hex pairs |
| ColorUtils.ComplementPairs | interior-design-backend/utils/colorUtils.js:77-84 | The complement string is `#` followed by the hex pairs of the inverted channels |
| ColorUtils.ComplementIsInversion | interior-design-backend/utils/colorUtils.js:76-84 | The `1 << 24` trick prints the colour with each channel inverted (255 - c) as a lower-case `#rrggbb` colour |
| ColorUtils.Max3 | interior-design-backend/utils/colorUtils.js:15 | `Math.max` of three: one of them, and at least each |
| ColorUtils.Min3 | interior-design-backend/utils/colorUtils.js:16 | `Math.min` of three: one of them, and at most each |
| ColorUtils.SaturationRange | interior-design-backend/utils/colorUtils.js:22-23 | The saturation of a non-grey colour lies in (0, 1] in both lightness branches |
| ColorUtils.HueRange | interior-design-backend/utils/colorUtils.js:25-31 | The hue of a non-grey colour lies in [0, 360) in each of the three max-channel cases |
| ColorUtils.HslRange | interior-design-backend/utils/colorUtils.js:10-35 | For bytes, hue is in [0, 360) and saturation and lightness in [0, 1]; saturation is 0 exactly when the colour is grey |
| ColorUtils.GreyHsl | interior-design-backend/utils/colorUtils.js:19-20 | A grey colour has hue 0, saturation 0 and lightness equal to its channel over 255 |
| ColorUtils.RotateRange | interior-design-backend/utils/colorUtils.js:88-93 | `(h + offset) % 360` of in-range values stays in [0, 360) and wraps once |
| ColorUtils.RoundUnit | interior-design-backend/utils/colorUtils.js:62 | `Math.round(x * 255)` of a unit value is a byte |
| ColorUtils.UnitToHexOfUnit | interior-design-backend/utils/colorUtils.js:61-64 | `toHex` of a unit value is the hex pair of the rounded byte |
| ColorUtils.Hue2RgbRange | interior-design-backend/utils/colorUtils.js:44-51 | `hue2rgb` of an unwrapped parameter lies between p and q |
| ColorUtils.Hue2RgbWrappedRange | interior-design-backend/utils/colorUtils.js:44-51 | `hue2rgb` after wrapping t into [0, 1] lies between p and q |
| ColorUtils.HslBounds | interior-design-backend/utils/colorUtils.js:53-54 | For s and l in [0, 1], 0 <= p <= q <= 1 |
| ColorUtils.HslBoundsDark | interior-design-backend/utils/colorUtils.js:53-54 | The same bounds in the l < 0.5 branch |
| ColorUtils.HslBoundsLight | interior-design-backend/utils/colorUtils.js:53-54 | The same bounds in the l >= 0.5 branch |
| ColorUtils.HexPairsColor | interior-design-backend/utils/colorUtils.js:66 | `#` and three hex pairs form a lower-case `#rrggbb` colour |
| ColorUtils.ChromaticChannel | interior-design-backend/utils/colorUtils.js:53-58 | Each chromatic channel of an in-range HSL triple is a unit value |
| ColorUtils.UnitsColor | interior-design-backend/utils/colorUtils.js:61-66 | Three unit channels print as a lower-case `#rrggbb` colour |
| ColorUtils.HslToHexIsColor | interior-design-backend/utils/colorUtils.js:38-67 | `hslToHex` of an in-range HSL triple is a lower-case `#rrggbb` colour |
| ColorUtils.GreyHslToHex | interior-design-backend/utils/colorUtils.js:41-42 | With saturation 0, `hslToHex` prints the grey of the lightness, whatever the hue |
| ColorUtils.GenerateComplementaryColors | interior-design-backend/utils/colorUtils.js:70-97 | The harmony set has six entries and starts with the given colour |
| ColorUtils.HarmonyWellFormed | interior-design-backend/utils/colorUtils.js:76-96 | Entries 1..5 (complement, analogous, triadic) are lower-case `#rrggbb` colours |
| ColorUtils.RotatedEntries | interior-design-backend/utils/colorUtils.js:86-93 | Entries 2..5 of the harmony set (analogous and triadic) are lower-case `#rrggbb` colours |
| ColorUtils.RotationsOf | interior-design-backend/utils/colorUtils.js:88-93 | The +30, +330, +120 and +240 degree rotations of an in-range HSL triple print as lower-case `#rrggbb` colours |
| ColorUtils.RotatedColor | interior-design-backend/utils/colorUtils.js:88-93 | A hue rotated by an in-range offset, with in-range saturation and lightness, prints as a lower-case `#rrggbb` colour |
| ColorUtils.RgbToHexOfChannels | interior-design-backend/utils/colorUtils.js:72-74 | Printing the parsed channels of a lower-case colour gives back the colour |
| ColorUtils.GreyHarmony | interior-design-backend/utils/colorUtils.js:86-93 | For a grey base colour, the four rotated entries all equal the base grey |
| ColorUtils.ComplementInvolution | interior-design-backend/utils/colorUtils.js:76-84 | Complementing the complement gives back the original lower-case colour |
| ColorUtils.ComplementEntry | interior-design-backend/utils/colorUtils.js:82-96 | Entry 1 of the harmony set is the complement of the parsed channels |
| ColorUtils.ChannelsOfRgbToHex | interior-design-backend/utils/colorUtils.js:2-7 | Parsing the encoding of a byte triple gives the triple |
| ColorUtils.ChannelsOfComplement | interior-design-backend/utils/colorUtils.js:72-84 | Parsing the complement gives the inverted channels |
| ColorExtraction.Regions | interior-design-backend/services/imageAnalysisService.js:192-197 | Four regions inside the picture, pairwise disjoint, covering exactly the 2⌊w/2⌋ by 2⌊h/2⌋ rectangle at the origin |
| ColorExtraction.RegionColors | interior-design-backend/services/imageAnalysisService.js:200-209 | `Promise.all` over the regions: every region's colour in order, or an error exactly when some region fails |
| ColorExtraction.HexAll | interior-design-backend/services/imageAnalysisService.js:210 | Every palette candidate is a lower-case `#rrggbb` colour whose parsed channels are the region colour at the same place |
| ColorExtraction.ExtractDominantColors | interior-design-backend/services/imageAnalysisService.js:178-223 | An undecodable image gives its error message; on success, the dominant colour is lower-case `#rrggbb` and the palette has at most four distinct lower-case colours |
| ColorExtraction.PaletteOfRegions | interior-design-backend/services/imageAnalysisService.js:181-217 | On success, the dominant is the picture's encoded dominant, and the palette holds exactly the encodings of the four region colours |
| ColorExtraction.DistinctQuadrants | interior-design-backend/services/imageAnalysisService.js:209-213 | Four pairwise different region colours give those four encodings as the palette, in region order |
| Text.Lower | interior-design-backend/services/imageAnalysisService.js:231 | `toLowerCase` keeps the length, leaves no upper-case ASCII letter, keeps every other character and maps each upper-case letter to its lower-case partner |
| Text.LowerIdempotent | interior-design-backend/services/suggestionService.js:48 | Lowering twice is lowering once |
| Seqs.UniqueProperties | interior-design-backend/services/imageAnalysisService.js:213 | The `Set` dedup has no repeats, is no longer than its input and has the same members |
| Seqs.UniqueOfDistinct | interior-design-backend/services/imageAnalysisService.js:213 | The dedup of a repeat-free sequence is the sequence itself |
| Seqs.UniqueSnoc | interior-design-backend/services/imageAnalysisService.js:213 | Appending an element to a sequence appends it to the dedup unless it is already there (insertion order) |
| Seqs.FilterProperties | interior-design-backend/routes/uploadRoutes.js:98 | `filter` keeps exactly the elements satisfying the predicate |
| Seqs.FilterConcat | interior-design-backend/routes/uploadRoutes.js:98 | `filter` distributes over concatenation |
| Seqs.FlattenSnoc | interior-design-backend/routes/uploadRoutes.js:63 | Pushing a list's elements extends the flattened result by that list |
| Seqs.FlattenEmpty | interior-design-backend/routes/uploadRoutes.js:55-70 | A flattening is empty exactly when every part is empty |
| Detections.KeptIndex | interior-design-backend/services/imageAnalysisService.js:230-237 | The kept index of a label is -1 or an index carrying that label |
| Detections.KeptIndexPresent | interior-design-backend/services/imageAnalysisService.js:230-237 | Every label that occurs has a kept detection |
| Detections.KeptIndexIsFirstMaximum | interior-design-backend/services/imageAnalysisService.js:234-235 | The kept detection of a label has the highest score among its label, strictly higher than every earlier one (the first maximum wins ties); there is none exactly when the label is absent |
| Detections.KeptIndexOfSingle | interior-design-backend/services/imageAnalysisService.js:234-235 | A label occurring once keeps that occurrence |
| Detections.KeysSnoc | interior-design-backend/services/imageAnalysisService.js:231 | Keys of an appended sequence are the appended keys |
| Detections.KeptIndexSnoc | interior-design-backend/services/imageAnalysisService.js:234-235 | One more detection replaces the kept one of its label exactly when it is new or scores strictly higher |
| Detections.StepOrder | interior-design-backend/services/imageAnalysisService.js:234-236 | After one loop step, the map's insertion order is the first-appearance order of the labels seen |
| Detections.StepValue | interior-design-backend/services/imageAnalysisService.js:234-236 | After one loop step, each map entry is the kept detection of its label |
| Detections.TracksStep | interior-design-backend/services/imageAnalysisService.js:230-237 | One loop step keeps the map equal to "kept detection per label, in first-appearance order" |
| Detections.RemoveDuplicateObjects | interior-design-backend/services/imageAnalysisService.js:226-241 | The loop over the label map returns exactly `Dedup` of its input |
| Detections.DedupKeysDistinct | interior-design-backend/services/imageAnalysisService.js:240 | No two entries of the output share a lower-cased label |
| Detections.DedupEntry | interior-design-backend/services/imageAnalysisService.js:240 | Entry i of the output is the kept detection of the i-th label in first-appearance order |
| Detections.DedupCoversKeys | interior-design-backend/services/imageAnalysisService.js:230-240 | Every label of the input is represented in the output |
| Detections.DedupKeepsFirstMaximum | interior-design-backend/services/imageAnalysisService.js:234-235 | Every output entry is an input detection that is the first maximum-score detection of its label |
| Detections.DedupDominates | interior-design-backend/services/imageAnalysisService.js:234-235 | Every input detection is matched by an output entry with its label and at least its score |
| Detections.DedupOfDistinctKeys | interior-design-backend/services/imageAnalysisService.js:226-241 | Input whose labels are pairwise different is returned unchanged |
| Detections.DedupIdempotent | interior-design-backend/services/imageAnalysisService.js:226-241 | Deduplicating twice is deduplicating once |
| ImageAnalysis.ClassifyAccept | interior-design-backend/services/imageAnalysisService.js:87-105 | An answer ends the loop with detections exactly when it is 2xx with an array body, and the detections are that array |
| ImageAnalysis.ClassifyTerminal | interior-design-backend/services/imageAnalysisService.js:120-127 | An answer stops retrying exactly when it is a 4xx other than 429 (401 and 403 included) |
| ImageAnalysis.AnalyzeImage | interior-design-backend/services/imageAnalysisService.js:54-175 | The retry loop returns the result and the request, warm-up and pause events of the specification `Analyze` |
| ImageAnalysis.Decisive | interior-design-backend/services/imageAnalysisService.js:71-146 | The last attempt made: every earlier answer is retryable, and unless it is the third attempt its own answer is not |
| ImageAnalysis.RunRetryUnroll | interior-design-backend/services/imageAnalysisService.js:107-144 | A retryable answer gives its request, the fallback switch when due, the pause before a further attempt, then the run from the next attempt with that answer's message as last error |
| ImageAnalysis.RetryKeepsRun | interior-design-backend/services/imageAnalysisService.js:107-144 | After the events of a retryable iteration, what remains of the specification is the run from the next attempt |
| ImageAnalysis.RunRetryStep | interior-design-backend/services/imageAnalysisService.js:107-144 | A retryable answer before the last attempt gives its request, the switch to the fallback model after attempt 1, a pause of 1000·attempt ms, then the next attempt |
| ImageAnalysis.RunStopStep | interior-design-backend/services/imageAnalysisService.js:99-127 | On the last attempt, or on an accepted or terminal answer, the request is the last event and the loop's outcome follows from the answer |
| ImageAnalysis.RunOutcome | interior-design-backend/services/imageAnalysisService.js:71-146 | The loop's outcome is decided by the answer at the decisive attempt |
| ImageAnalysis.RunPosts | interior-design-backend/services/imageAnalysisService.js:81 | One detection request per attempt up to the decisive one, each to that attempt's model |
| ImageAnalysis.RunWaits | interior-design-backend/services/imageAnalysisService.js:140-144 | One pause before each further attempt, with linear back-off 1000·attempt ms |
| ImageAnalysis.RunWarmups | interior-design-backend/services/imageAnalysisService.js:133-137 | The fallback model is warmed up once, exactly when attempt 1 failed retryably |
| ImageAnalysis.FilterOfBlock | interior-design-backend/services/imageAnalysisService.js:133-144 | Selecting events distributes over one iteration's event blocks |
| ImageAnalysis.NotConfiguredSendsNothing | interior-design-backend/services/imageAnalysisService.js:59-66 | With no (or an empty) token there is no request at all, and the result is the not-configured error |
| ImageAnalysis.AnalyzeClosedForm | interior-design-backend/services/imageAnalysisService.js:54-175 | With a token: warm-up of the primary first; d requests (attempt 1 to the primary, later ones to the fallback); d-1 pauses of 1000, 2000 ms; a fallback warm-up exactly when d > 1; the result is the detections, or else the colour fallback or failure with the decisive answer's message |
| ImageAnalysis.AnalyzeEvents | interior-design-backend/services/imageAnalysisService.js:54-146 | With a token: the primary warm-up first, one request per attempt up to the decisive one, pauses of 1000·i ms, and a fallback warm-up exactly when there is a second attempt |
| ImageAnalysis.AnalyzeResult | interior-design-backend/services/imageAnalysisService.js:99-174 | With a token, the result is the detections of an accepted decisive answer, otherwise what follows the loop with that answer's message |
| ImageAnalysis.TotalWaitBound | interior-design-backend/services/imageAnalysisService.js:15-16 | The pauses of one analysis add up to at most 3000 ms |
| ImageAnalysis.AuthErrorStopsAtOnce | interior-design-backend/services/imageAnalysisService.js:121-123 | A 401/403 on attempt 1 means one request, no retry and no switch, yet the colour fallback still runs with the status message |
| ImageAnalysis.AlwaysUnavailable | interior-design-backend/services/imageAnalysisService.js:94-96 | Three 503 answers give exactly the seven events of three attempts, and failure details "Service temporarily unavailable (503)" when colours fail |
| ImageAnalysis.UnavailableEvents | interior-design-backend/services/imageAnalysisService.js:54-146 | Three 503 answers give the seven events: primary warm-up, request 1 to the primary, fallback warm-up, 1000 ms, request 2, 2000 ms, request 3 |
| ImageAnalysis.UnavailableRun | interior-design-backend/services/imageAnalysisService.js:94-144 | Three 503 answers: three requests (primary, then fallback twice), the fallback warm-up and pauses of 1000 and 2000 ms, ending exhausted with the 503 message |
| ImageAnalysis.AfterRetriesCases | interior-design-backend/services/imageAnalysisService.js:152-174 | After the loop: colour-only fallback with the placeholder object exactly when extraction succeeds, otherwise failure with the last error's message or "Unknown error"; both carry an error |
| Suggestions.ValidObjectsSpec | interior-design-backend/services/suggestionService.js:14-16 | The valid objects are exactly the label-and-score projections of the detections with a furniture label (any case) and score above 0.5 |
| Suggestions.ValidObjectsConcat | interior-design-backend/services/suggestionService.js:14-16 | Filtering distributes over concatenation |
| Suggestions.ValidObjectsNonEmpty | interior-design-backend/services/suggestionService.js:14-16 | One valid detection makes the valid list non-empty |
| Suggestions.ValidObjectsIgnore | interior-design-backend/services/suggestionService.js:14-16 | Appending an invalid detection does not change the valid list |
| Suggestions.FoldMaximum | interior-design-backend/services/suggestionService.js:27-28 | The reduce returns the seed if it beats everything, otherwise the last maximum-score element |
| Suggestions.PrimaryIsLastMaximum | interior-design-backend/services/suggestionService.js:27-28 | The primary object is the last valid object of maximal score (ties go to the later one) |
| Suggestions.SuggestionIgnoresCase | interior-design-backend/services/suggestionService.js:48 | The advice does not depend on the case of the label |
| Suggestions.SuggestionCases | interior-design-backend/services/suggestionService.js:47-58 | Coffee-table advice exactly for sofa/couch, desk exactly for chair, bed piece exactly for bed, the decorative piece exactly otherwise |
| Suggestions.GenerateSuggestions | interior-design-backend/services/suggestionService.js:6-44 | Throws the undefined-slice TypeError exactly when there are valid objects but extraction fails; otherwise one record for the file with the valid objects and colours (null on extraction error); no valid objects gives the fixed text and no palette, otherwise the "Detected" text and a six-colour palette starting at the dominant colour |
| Suggestions.DetectedSuggestionSpec | interior-design-backend/services/suggestionService.js:27-38 | The text names the number of valid objects and the last maximum-score one with its advice, and the palette is all lower-case colours |
| Suggestions.DetectedTextNames | interior-design-backend/services/suggestionService.js:27-33 | The detected-furniture text starts with "Detected " and names the count and a last maximum-score object followed by its advice |
| Suggestions.DominantHarmony | interior-design-backend/services/suggestionService.js:38 | The palette built from a lower-case dominant colour holds lower-case colours only |
| Suggestions.PlaceholderGivesEmptySuggestion | interior-design-backend/services/imageAnalysisService.js:161-163 | The fallback's placeholder object (score 0.3) yields the no-furniture suggestion with the colours |
| UploadRoute.ProcessAllErrPrefix | interior-design-backend/routes/uploadRoutes.js:39-105 | Once a file throws, later files do not change the outcome |
| UploadRoute.ProcessAllSnoc | interior-design-backend/routes/uploadRoutes.js:39-105 | One loop iteration appends the file's URL, its suggestions and its warning, or stops with its error |
| UploadRoute.ProcessOne | interior-design-backend/routes/uploadRoutes.js:40-104 | The loop body returns exactly the specification's per-file step over the analysis |
| UploadRoute.HandleUpload | interior-design-backend/routes/uploadRoutes.js:29-129 | The handler's reply is exactly the specification `Respond` |
| UploadRoute.FlattenSingletons | interior-design-backend/routes/uploadRoutes.js:55-70 | One warning per file flattens to the list of those warnings |
| UploadRoute.BadRequestIffNoFiles | interior-design-backend/routes/uploadRoutes.js:31-33 | The reply is 400 "No files uploaded" exactly when no file is present |
| UploadRoute.ProcessAllOk | interior-design-backend/routes/uploadRoutes.js:39-105 | The batch succeeds exactly when every file does; then URL i belongs to file i, and suggestions and warnings are the per-file lists concatenated in order |
| UploadRoute.ProcessAllErr | interior-design-backend/routes/uploadRoutes.js:39-105 | A failed batch carries the message of the first file whose step threw |
| UploadRoute.FileStep | interior-design-backend/routes/uploadRoutes.js:47-104 | A completed file step carries a warning exactly when the analysis has an error, and the warning names the file and carries that error |
| UploadRoute.DetectedContribution | interior-design-backend/routes/uploadRoutes.js:95-104 | For detections, the step gives no warning and the single record `generateSuggestions` makes for the file from the detections above 0.5 after dedup |
| UploadRoute.ColorOnlyContribution | interior-design-backend/routes/uploadRoutes.js:53-63 | For the colour-only fallback, the step gives the `generateSuggestions` record for the placeholder objects and a warning with the analysis error and the fallback text |
| UploadRoute.GenericContribution | interior-design-backend/routes/uploadRoutes.js:64-93 | For a total failure, the step gives the three low-confidence generic suggestions for the file (colour, lighting, space, in that order) and a warning with the error and the analysis's suggestion or the retry-later text |
| UploadRoute.ProcessAllCompletes | interior-design-backend/routes/uploadRoutes.js:39-105 | The loop completes exactly when every file's step completes |
| UploadRoute.ProcessAllLists | interior-design-backend/routes/uploadRoutes.js:39-105 | When every step completes, URL i belongs to file i, and suggestions and warnings are the per-file lists concatenated in order |
| UploadRoute.ProcessedReply | interior-design-backend/routes/uploadRoutes.js:107-120 | A 200 reply lists the files, their URLs and suggestions; warnings are present exactly when some analysis had an error, and the message says "limitations" exactly then |
| UploadRoute.ServerErrorReply | interior-design-backend/routes/uploadRoutes.js:121-127 | A 500 reply carries the message of the first file that threw, with the fixed `error` and `suggestion` texts |
| UploadRoute.NoTokenReply | interior-design-backend/routes/uploadRoutes.js:64-93 | With no token every file gets the three generic suggestions and the not-configured warning |
| UploadRoute.ProcessAllFirstErr | interior-design-backend/routes/uploadRoutes.js:39-105 | If the first k files succeed and file k throws, the batch fails with file k's message |
| UploadRoute.ValidSurvivesDedup | interior-design-backend/routes/uploadRoutes.js:98-99 | A valid detection still leaves a valid object after the confidence filter and dedup |
| UploadRoute.ExtractionFailureAborts | interior-design-backend/routes/uploadRoutes.js:95-127 | A detected furniture item on an image whose colours cannot be extracted makes the whole request a 500 with the TypeError message |

## Left out

- HTTP: the calls to the detection service (URLs, headers, 45 s timeout, request body) are not modelled. Each attempt's answer is an input, either a status and body or no response with an error message.
- `warmupModel` (imageAnalysisService.js:25-51): modelled only as a warm-up event. Its own request, its 10 s timeout and its result are ignored by the caller, so they are not modelled.
- Reading the file, MIME lookup, multer storage, `Date.now` file names and all logging are not modelled.
- `path.basename(filePath)` is taken to be the upload's filename, because the route builds `filePath` from it.
- The image library (`sharp`): decoding and the colour statistics are an oracle inside `Picture`. Any library error is an error result carrying its message.
- `Promise.all` rejects with the first error to settle. The model takes the first region in region order.
- ColorUtils.RgbToHsl: computed over exact reals, not IEEE-754 doubles. `Math.round` is modelled as floor(x + 0.5), so rounding at a half may differ from doubles.
- ColorUtils.Channels: `parseInt(…, 16)` is modelled only on strings of hex digits. The NaN path for other strings is not modelled, because callers pass a `#rrggbb` colour.
- Text.Lower: ASCII case mapping only. JavaScript's `toLowerCase` also maps non-ASCII letters.
- Detections.RemoveDuplicateObjects: the key order of a JavaScript object is modelled as insertion order. JavaScript lists integer-like keys first, and a label such as `__proto__` behaves differently; neither is modelled. `!objectMap[label]` is treated as "label absent", since stored detections are objects.
- Suggestions.GenerateSuggestions: the route's third argument has no parameter here, because the function ignores it.
- The text of the generic suggestions is derived from their topic (`type` field) rather than stored.
- ImageAnalysis: the message of an HTTP error is modelled as "Request failed with status code N", which is the text axios uses.
- When the colour-only fallback's own `generateSuggestions` throws, the warning already pushed is not visible, because the reply is then the 500 error. It is therefore not modelled.
- Number values: statuses are naturals and scores are reals. NaN or missing labels and scores are not modelled.
