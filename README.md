# CV optimizer: a verified model of the server core

This project models the part of the CV optimizer server that holds its logic:

- **the markup-line renderer** in `createImprovedPdf`. It draws a fixed
  "Curriculum Vitae" title. It then splits the rewritten CV text at `\n`,
  trims each line at its end, and classifies it: blank, `---` rule,
  `### ` heading, `**…**` sub-heading, `* `/`- ` bullet, line holding `|`,
  or plain paragraph. The first match wins. Each line draws one step, and a
  font size and fill colour are carried from line to line.
- **the rest of `optimizeCvForJob`**:
  - the prompt that splices the encoded CV and the job description into fixed instructions;
  - the checks on the model's reply;
  - the cleaning of code fences before the reply is decoded as JSON;
  - the check for `improved_cv_full_text`;
  - the PDF name `cv-improved-for-job-<Date.now()>.pdf`.
- **the two request handlers** in `cvController.js`:
  - the optimize handler checks for an uploaded file, then for a non-blank
    job description, then calls the service. It answers 200 with
    `{analysis, pdfFilename}` or 500 with the error's message.
  - the download handler refuses a name holding `..` with 400, answers 404
    for a name with no generated file, and otherwise serves the file as a
    PDF attachment.

The modules are:

- `Wrappers`: `Option`, `Result`.
- `Strings`: the JavaScript string operations the code relies on:
  - `trim`/`trimEnd` over the ECMAScript white-space and line-terminator characters;
  - `split("\n")` and its inverse;
  - `startsWith`/`endsWith`/`includes`;
  - the ASCII case folding of a `/…/i` pattern.
- `Render`: the line loop as a `method` with a `for` loop over the lines. It
  is proved against the function `Rendered` (title, then one step per line)
  and against the style it leaves behind.
- `Service`: the prompt, the reply cleaning and validation, the generated
  name, and the whole service as a function of its collaborators. Those
  collaborators are parameters:
  - the model call `ai`, which may throw or return non-text;
  - `JSON.parse` as `parse`, which may fail;
  - the clock reading `now`.
- `Controller`: both handlers as decision functions returning a `Response`
  value. The generated-files directory is a set of names.

Behaviour of the code worth knowing:

- A `---` line is recognised after trimming, so an indented rule is still a rule.
- For text ending in a newline, the loop draws a gap for the empty piece
  after the final newline. So `"### Summary\nBuilt systems.\n---\n* Led a team\n"`
  gives the title, four blocks and then a gap (`Render.TrailingNewlineAddsGap`,
  `Render.SummaryWithFinalNewline`).
- The fence cleaning removes only a leading "```json" (in any letter case) or
  "```" and a trailing "```". Another language tag such as "```python" stays
  in the text handed to the decoder (`Service.PythonTagKept`).
- A reply is accepted when `improved_cv_full_text` is truthy, not only when it is a
  non-empty string. A truthy non-string value passes validation and then makes
  the renderer's `contentText.split` throw a `TypeError`
  (the `ImprovedTextNotString` error).
- A reply that decodes to JSON `null` throws a `TypeError` when the property is read,
  not the named error (the `NullAnalysis` error).
- No other JSON value is rejected as "not an object": reading the property of a
  number, string or array gives `undefined`, and so the missing-text error.

## Model

| member | source | states |
|---|---|---|
| Render.Classify | server/cvService.js:47-118 | the class of a line: after `trimEnd`, the first of seven tests that holds, in source order (blank, `---`, `### `, `**…**` longer than 4, `* `/`- ` longer than 2, holds a bar, otherwise paragraph) |
| Render.LineAction | server/cvService.js:66-118 | the step a line draws for its class: gap, rule, the heading title at 14 navy underlined, the sub-heading title at 12 grey underlined, "• " and the bullet text at 12 black indent 10, the whole line centred at 11 grey, or the whole line left at 12 black |
| Render.Rendered | server/cvService.js:32-119 | what the renderer draws for a text: the title, then the step of each `\n`-separated piece in order |
| Render.StyleAfter | server/cvService.js:42-115 | the style a line leaves: blank and rule lines keep it, a pipe line leaves 11 black, every other line 12 black |
| Render.CreateImprovedPdf | server/cvService.js:32-119 | the loop draws the title, then one step per `\n`-separated piece, in order (`log == Rendered(text)`); it leaves fill black and font size 11 exactly when the last line that drew text was a pipe line, 12 otherwise |
| Render.DrawLine | server/cvService.js:46-118 | one turn of the loop draws the step of the line's class; blank and rule lines keep the style, pipe lines leave 11/black, every other text line leaves 12/black |
| Render.RenderedShape | server/cvService.js:32-46 | the output has exactly 1 + (number of pieces) steps; the first is the title; step i+1 is the step of piece i |
| Render.LineActionsAt | server/cvService.js:46-119 | the steps of a run of lines have one entry per line, and entry i is the step of line i |
| Render.BlankIffAllSpace | server/cvService.js:47-53 | a line is blank exactly when it is all white space, and then it only leaves a gap |
| Render.IndentedRule | server/cvService.js:55-63 | `---` with any white space before or after is a rule |
| Render.HeadingAtColumnZero | server/cvService.js:66 | a heading line starts with `### ` at column 0 |
| Render.IndentedHeadingIsParagraph | server/cvService.js:66-117 | " ### Summary" is a plain paragraph drawn with its indentation |
| Render.HeadingTitle | server/cvService.js:66-72 | a heading's text is the rest after `### `, trimmed; it is never empty and has no white space at either end |
| Render.FourAsterisksIsParagraph | server/cvService.js:79-117 | `****` fails the length test of a sub-heading and is a plain paragraph |
| Render.EmptySubHeading | server/cvService.js:79-87 | `** **` is a sub-heading with an empty title |
| Render.BulletLengthGuardRedundant | server/cvService.js:94 | after `trimEnd`, a line starting with `* ` or `- ` is always longer than 2, so the length test never rejects it |
| Render.BulletText | server/cvService.js:94-99 | a bullet draws "• " plus the rest after the marker, trimmed, at size 12, black, indent 10 |
| Render.BulletBeforePipe | server/cvService.js:94-108 | the line "- a &#124; b" is a bullet drawn as "• a &#124; b", bar kept, not a centred line |
| Render.LastTextIsPipeMeans | server/cvService.js:106-115 | the size-11 condition holds exactly when some pipe line is followed only by blank and rule lines |
| Render.BulletMarkerWins | server/cvService.js:47-101 | a line that, once end-trimmed, opens with `* ` or `- ` is a bullet, whatever follows: none of the earlier tests catches it |
| Render.PlainLine | server/cvService.js:47-118 | a line with non-space ends, not opening with '#', '*' or '-' and holding no bar falls through to the default: a left-aligned paragraph of the line itself at 12, black |
| Render.TrailingNewlineAddsGap | server/cvService.js:44-53 | a final newline adds exactly one gap after what the text without it renders |
| Render.SummaryExample | server/cvService.js:32-119 | "### Summary", "Built systems.", "---", "* Led a team" on four lines render as title, heading "Summary", paragraph, rule, bullet "• Led a team" |
| Render.SummaryWithFinalNewline | server/cvService.js:32-119 | the same text ending in a newline renders as the same steps followed by a gap |
| Strings.TrimEndSpec | server/cvService.js:47 | `trimEnd` keeps a prefix that is empty or ends in a non-space character, and drops only white space |
| Strings.TrimStartSpec | server/cvService.js:50 | the start-trim keeps a suffix that is empty or starts with a non-space character, and drops only white space |
| Strings.TrimEndUnique | server/cvService.js:47 | any split of a line into a part ending in non-space and an all-space tail is the `trimEnd` split |
| Strings.TrimStartUnique | server/cvService.js:50 | any split into an all-space head and a part starting with non-space is the start-trim split |
| Strings.TrimAround | server/cvService.js:50-56 | trimming white space placed around a text with non-space ends gives back that text |
| Strings.TrimTailOfTrimEnd | server/cvService.js:67 | trimming a tail of the `trimEnd`-ed line equals trimming the same tail of the raw line |
| Strings.TrimEmptyIffAllSpace | server/cvService.js:50 | a string trims to "" exactly when it is all white space |
| Strings.TrimSpec | server/cvService.js:205 | a trimmed string is empty or has non-space characters at both ends |
| Strings.TrimIdempotent | server/cvService.js:205-213 | trimming twice is trimming once |
| Strings.Split | server/cvService.js:44 | `split("\n")` gives at least one piece, and no piece holds a newline |
| Strings.JoinSplit | server/cvService.js:44 | joining the pieces with newlines gives back the text |
| Strings.SplitJoin | server/cvService.js:44 | splitting newline-free pieces joined with newlines gives back the pieces |
| Strings.SplitTrailingNewline | server/cvService.js:44 | splitting a text with a newline appended gives its pieces plus one empty piece |
| Strings.SplitPiece | server/cvService.js:44 | a newline-free first piece followed by a newline splits off as the first piece |
| Service.Truthy | server/cvService.js:223 | JavaScript truthiness of a decoded value: `null`, `false`, `0` and `""` are falsy, everything else truthy |
| Service.Property | server/cvService.js:222 | reading `improved_cv_full_text` gives a value exactly when the decoded value is an object holding that key, and that value is the one stored under the key |
| Service.Message | server/cvService.js:190-230 | the text each service error carries: the four thrown messages and the two V8 `TypeError` texts (reading a property of `null`, calling `split` on a non-string) |
| Service.MessagesDistinct | server/cvService.js:197-224 | every service error has a non-empty message, and different errors have different messages |
| Service.Prompt | server/cvService.js:133-184 | the prompt: the fixed instructions with the encoded CV and then the job description spliced in |
| Service.SpliceSpec | server/cvService.js:133-184 | the prompt is the fixed text with the two inputs spliced in verbatim at known positions: it opens with the fixed introduction, ends with the fixed closing, and has the length of the parts together |
| Service.SpliceContains | server/cvService.js:133-184 | each input occurs in the prompt |
| Service.PromptEmbedsInputs | server/cvService.js:133-184 | the prompt contains the encoded CV and the job description |
| Service.StripFences | server/cvService.js:209-213 | the replace chain on the trimmed reply: drop a leading "```json" in any letter case, then a leading "```", then a trailing "```", then trim |
| Service.Cleaned | server/cvService.js:205-213 | the text handed to `JSON.parse`: the reply trimmed, then put through the replace chain |
| Service.FenceBeforeJsonTag | server/cvService.js:210-211 | only text starting with "```" can match the case-insensitive "```json" pattern |
| Service.CleanUnfenced | server/cvService.js:205-215 | a trimmed reply that neither starts nor ends with "```" reaches `JSON.parse` unchanged |
| Service.JsonFencedReply | server/cvService.js:205-215 | a reply that, once trimmed, is "```" + any case of "json" + white space + text + white space + "```" cleans to that text |
| Service.PlainFencedReply | server/cvService.js:205-215 | a reply that, once trimmed, is fenced without a "json" tag (untagged, or a tag not opening with "json" in any letter case, such as "python" or "javascript") cleans to what lies between the fences, trimmed, tag included |
| Service.JsonOpenOnly | server/cvService.js:205-213 | a reply that, once trimmed, opens with "```" + any case of "json" + white space + text and has no closing fence cleans to that text |
| Service.CloseOnly | server/cvService.js:205-213 | a reply that, once trimmed, is a text + white space + "```" with no opening fence cleans to that text |
| Service.PythonTagKept | server/cvService.js:210-213 | "```python\n{}\n```" cleans to "python\n{}": the tag is not removed |
| Service.UsualFencedReply | server/cvService.js:205-215 | "```json\n" + text + "\n```" cleans to the text |
| Service.BareReply | server/cvService.js:205-215 | an already trimmed, unfenced JSON text cleans to itself |
| Service.JudgedByCleanedText | server/cvService.js:200-225 | two non-empty replies that clean to the same text are judged alike |
| Service.FencedJsonJudgedAlike | server/cvService.js:200-225 | a JSON text and the same text in a "```json" fence get the same verdict |
| Service.BlankReplyDecodesEmpty | server/cvService.js:200-219 | a reply of white space only passes the text check and reaches `JSON.parse` as ""; if "" fails to decode, the result is the parse error |
| Service.ValidateReply | server/cvService.js:188-225 | success exactly when the reply is non-empty text whose cleaned form decodes to an object with a truthy `improved_cv_full_text`, and then the analysis and the CV text are those values; the model failing gives the unavailable error, a non-text or empty reply the invalid-text error, and a decode failure the parse error, a reply decoding to `null` the null-analysis error, and any other decoded value without a truthy `improved_cv_full_text` (missing, `""`, `0`, `false`, `null`, or not an object) the missing-text error, each exactly in those cases |
| Service.GeneratedName | server/cvService.js:227 | the PDF name `cv-improved-for-job-` + the clock reading in decimal + `.pdf` |
| Service.Decimal | server/cvService.js:227 | the timestamp is written as a non-empty string of decimal digits |
| Service.DecimalRoundTrip | server/cvService.js:227 | reading back the digits of a timestamp gives the timestamp |
| Service.GeneratedNameRoundTrip | server/cvService.js:227 | the clock reading can be recovered from the generated name, so distinct readings give distinct names |
| Service.OneDotInGeneratedName | server/cvService.js:227 | the only '.' in a generated name opens ".pdf" |
| Service.GeneratedNameHasNoDotDot | server/cvService.js:227 | no generated name contains ".." |
| Service.Conclude | server/cvService.js:222-240 | a failed check is passed on and no document is produced; a truthy CV text that is not a string fails with the type error `contentText.split` throws (line 44); success exactly when the CV text is a string, and then the output holds the analysis, the name made from the clock, and the rendering of that text |
| Service.OptimizeCvForJob | server/cvService.js:130-241 | the whole service: the model is asked with the prompt made from both inputs, and its reply is answered |
| Service.Answer | server/cvService.js:188-240 | what the service makes of a reply: the checks, then the rendering and the name |
| Service.AnswerOutcome | server/cvService.js:188-240 | the service succeeds exactly when the model returns non-empty text that cleans to an object whose `improved_cv_full_text` is a non-empty string; then it returns that object, `cv-improved-for-job-<now>.pdf`, and the rendering of that text |
| Controller.HasJobDescription | server/cvController.js:14 | the guard `!jd || jd.trim().length === 0` fails: the description is present and its trim is not empty |
| Controller.JobDescriptionGuard | server/cvController.js:12-18 | the job description passes exactly when it is present and not all white space |
| Controller.ErrorText | server/cvController.js:33-35 | the 500 body carries the error's message, or "Internal server error while optimizing CV for job" when the message is empty; it is never empty |
| Controller.Wired | server/cvController.js:20-25 | the service as the handler calls it: the stored file's path is read and encoded, then the service runs on that text and the job description with the model, the decoder and the clock (the file read is at server/cvService.js:131) |
| Controller.OptimizeForJob | server/cvController.js:6-37 | no file gives 400 "No CV file was uploaded", checked first; a missing or blank description gives 400 with its own message; 400 exactly when a guard fails; 200 exactly when the service succeeds, with body exactly {analysis, pdfFilename}; 500 exactly when it fails, with that error's message |
| Controller.RejectedBeforeService | server/cvController.js:8-18 | a request a guard turns away gets the same reply whatever the service would do, so the service is not consulted |
| Controller.ErrorsTellApart | server/cvController.js:31-36 | two service failures produce the same reply exactly when they are the same error |
| Controller.Disposition | server/cvController.js:54 | the header is `attachment; filename="…"` of the right length |
| Controller.DispositionNamesFile | server/cvController.js:54 | the `Content-Disposition` header names exactly the requested file |
| Controller.DownloadPdf | server/cvController.js:40-57 | a name holding ".." gives 400 "Invalid filename", exactly then; a clean name with no generated file gives 404 "File not found", exactly then; otherwise the file is served as `application/pdf` under its own name |
| Controller.TraversalRefusedWhateverIsOnDisk | server/cvController.js:43-45 | the ".." refusal does not depend on which files exist |
| Controller.OptimizeThenDownload | server/cvController.js:22-54 | the name a successful optimize request returns is `cv-improved-for-job-<now>.pdf`; once that file exists the download serves it, and before that the reply is 404, never 400 |

## Left out

- PDFKit geometry is not modelled: cursor moves (`moveDown` amounts), coordinates, margins and page width. A step records only its text, size, colour, alignment, underline and indent. Rules and gaps are bare steps.
- Streams and promises are not modelled: the write stream, `doc.end()`, and resolving on `finish` or rejecting on `error`. A write error is not modelled.
- When the renderer's `split` throws, a partly written file is left on disk. Only the error is modelled.
- The Gemini client in server/gemini.js is not part of this model. Its call is the parameter `ai`. `AiReply.NotText` stands for any non-string it resolves to.
- `JSON.parse` is the parameter `parse`; the JSON grammar is not modelled.
- Reading the uploaded file and its base64 encoding are not modelled. They are a parameter, the encoded string.
- `Date.now()` is the parameter `now`. Deleting the uploaded file after rendering is not modelled.
- `path.join` is not modelled: the download handler's file lookup is membership of the name in the set of generated names. Path normalisation is not modelled (e.g. a name with `/`). The name "." joins to the directory itself, which exists, so the server would try to stream the directory; the model answers 404 unless "." is among the generated names.
- Streaming the file to the client is not modelled, and neither is the commented-out deletion after sending.
- The error logging (`console.error`/`console.warn`) is not modelled.
- The two `TypeError` messages (a `null` analysis, a non-string CV text) are written as V8 words them; other engines word them differently.
- Controller.OptimizeForJob: the job description is a string or missing. A non-string field (e.g. a repeated form field arriving as an array) would make `trim` throw and give a 500. That case is not modelled.
- Controller.OptimizeForJob: an error thrown before the service's own checks (reading the uploaded file) is not modelled. The service's errors all carry non-empty messages, so the default 500 message is reachable only through such errors.
- String lengths: the model counts characters where JavaScript counts UTF-16 code units. The two length tests (`> 4` on a line framed by `**`, `> 2` on a line opening with a two-character marker) decide the same either way, because a line that fails them consists of the ASCII markers alone; the markers cut off by `substring` are ASCII too.
- server/cvRoutes.js is framework wiring and is not modelled: multer storage, the PDF MIME filter and the routes. The same goes for server/server.js (Express and CORS set-up) and client/src/App.js (the React form).
