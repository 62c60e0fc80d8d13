/**
 * The two request handlers of server/cvController.js as decision functions:
 * each takes what the request carries (and, for the download, the names of
 * the generated files on disk) and returns the reply instead of writing it
 * to the response object.
 */
module Controller {
  import opened Wrappers
  import opened Strings
  import Service

  // ---------- replies ----------

  /** A JSON reply body. */
  datatype Body =
    | ErrorBody(error: string)
    | ResultBody(analysis: Service.Json, pdfFilename: string)

  /** What a handler sends back. */
  datatype Response =
    | JsonReply(status: nat, body: Body)        // `res.status(s).json(b)`; a bare `res.json(b)` is status 200
    | TextReply(status: nat, text: string)      // `res.status(s).send(t)`
    | FileReply(contentType: string, disposition: string, file: string)
                                                // headers set, then the file streamed with status 200

  // ---------- POST /api/optimize-for-job ----------

  /** The file multer stored for the upload. */
  datatype Upload = Upload(path: string)

  /** What the optimize handler reads from the request; `None` is a missing field. */
  datatype OptimizeRequest = OptimizeRequest(file: Option<Upload>, jobDescription: Option<string>)

  /** The service as the handler sees it: the stored file's path and the job description in. */
  type Optimizer = (string, string) -> Result<Service.ServiceOutput, Service.ServiceError>

  const NoFile: string := "No CV file was uploaded"
  const NoJobDescription: string := "Job description is required in the request body"
  const DefaultError: string := "Internal server error while optimizing CV for job"

  /** `!jd || jd.trim().length === 0` is false: the description is present and not blank. */
  predicate HasJobDescription(jd: Option<string>) {
    jd.Some? && |Trim(jd.value)| != 0
  }

  /** A description passes the guard exactly when it is present and not all white space. */
  lemma JobDescriptionGuard(jd: Option<string>)
    ensures HasJobDescription(jd) <==> jd.Some? && !AllSpace(jd.value)
  {
    if jd.Some? {
      TrimEmptyIffAllSpace(jd.value);
    }
  }

  /** `err.message || default`: the message of a thrown error, or the default one when it is empty. */
  function ErrorText(message: string): (t: string)
    ensures t != []
    ensures message != [] ==> t == message
    ensures message == [] ==> t == DefaultError
  {
    if message != [] then message else DefaultError
  }

  /** Whether the request gets past both guards, so that the service is called. */
  predicate Admitted(req: OptimizeRequest) {
    req.file.Some? && HasJobDescription(req.jobDescription)
  }

  /**
   * `optimizeForJobController`: the missing file is checked first, then the
   * job description; only then is the service called, and its outcome decides
   * between 200 with exactly the analysis and the file name, and 500 with the
   * message of the error it threw.
   */
  function OptimizeForJob(req: OptimizeRequest, optimize: Optimizer): (resp: Response)
    ensures resp.JsonReply?
    ensures resp.status == 400 <==> !Admitted(req)
    ensures req.file.None? ==> resp.body == ErrorBody(NoFile)
    ensures req.file.Some? && !Admitted(req) ==> resp.body == ErrorBody(NoJobDescription)
    ensures resp.status == 200 <==>
      Admitted(req) && optimize(req.file.value.path, req.jobDescription.value).Success?
    ensures resp.status == 200 ==>
      var out := optimize(req.file.value.path, req.jobDescription.value).value;
      resp.body == ResultBody(out.analysis, out.pdfFilename)
    ensures resp.status == 500 <==>
      Admitted(req) && optimize(req.file.value.path, req.jobDescription.value).Failure?
    ensures resp.status == 500 ==>
      resp.body == ErrorBody(Service.Message(optimize(req.file.value.path, req.jobDescription.value).error))
  {
    if req.file.None? then JsonReply(400, ErrorBody(NoFile))
    else if !HasJobDescription(req.jobDescription) then JsonReply(400, ErrorBody(NoJobDescription))
    else
      match optimize(req.file.value.path, req.jobDescription.value)
      case Success(out) => JsonReply(200, ResultBody(out.analysis, out.pdfFilename))
      case Failure(e) =>
        Service.MessagesDistinct(e, e);
        JsonReply(500, ErrorBody(ErrorText(Service.Message(e))))
  }

  /** A request the guards turn away gets the same reply whatever the service would have done. */
  lemma RejectedBeforeService(req: OptimizeRequest, optimize1: Optimizer, optimize2: Optimizer)
    requires !Admitted(req)
    ensures OptimizeForJob(req, optimize1) == OptimizeForJob(req, optimize2)
  {
  }

  /** Two service errors never reach the client with the same message. */
  lemma ErrorsTellApart(req: OptimizeRequest, optimize1: Optimizer, optimize2: Optimizer)
    requires Admitted(req)
    requires optimize1(req.file.value.path, req.jobDescription.value).Failure?
    requires optimize2(req.file.value.path, req.jobDescription.value).Failure?
    ensures OptimizeForJob(req, optimize1) == OptimizeForJob(req, optimize2) <==>
      optimize1(req.file.value.path, req.jobDescription.value).error ==
      optimize2(req.file.value.path, req.jobDescription.value).error
  {
    Service.MessagesDistinct(optimize1(req.file.value.path, req.jobDescription.value).error,
                             optimize2(req.file.value.path, req.jobDescription.value).error);
  }

  // ---------- GET /api/download/:filename ----------

  const InvalidFilename: string := "Invalid filename"
  const FileNotFound: string := "File not found"
  const PdfType: string := "application/pdf"
  const DispositionPrefix: string := "attachment; filename=\""

  /** The `Content-Disposition` value that offers the file under its own name. */
  function Disposition(filename: string): (d: string)
    ensures StartsWith(d, DispositionPrefix) && EndsWith(d, "\"")
    ensures |d| == |DispositionPrefix| + |filename| + 1
  {
    var d := DispositionPrefix + filename + "\"";
    assert d[..|DispositionPrefix|] == DispositionPrefix;
    d
  }

  /** The file name a `Content-Disposition` value of that shape names. */
  function DispositionFilename(d: string): string
    requires |d| >= |DispositionPrefix| + 1
  {
    d[|DispositionPrefix|..|d| - 1]
  }

  /** The header names exactly the requested file. */
  lemma DispositionNamesFile(filename: string)
    ensures DispositionFilename(Disposition(filename)) == filename
  {
    var d := Disposition(filename);
    assert d == DispositionPrefix + filename + "\"";
    assert d[|DispositionPrefix|..|d| - 1] == filename;
  }

  /**
   * `downloadPdfController`: a name holding ".." is refused before the disk
   * is consulted; a name with no generated file behind it is not found;
   * any other is served as a PDF attachment under its own name. `generated`
   * is the set of names for which the existence test on the generated-files
   * directory joined with the name holds.
   */
  function DownloadPdf(filename: string, generated: set<string>): (resp: Response)
    ensures resp == TextReply(400, InvalidFilename) <==> Contains(filename, "..")
    ensures resp == TextReply(404, FileNotFound) <==> !Contains(filename, "..") && filename !in generated
    ensures resp.FileReply? <==> !Contains(filename, "..") && filename in generated
    ensures resp.FileReply? ==>
      && resp.contentType == PdfType && resp.file == filename
      && resp.disposition == Disposition(filename) && DispositionFilename(resp.disposition) == filename
  {
    if Contains(filename, "..") then TextReply(400, InvalidFilename)
    else if filename !in generated then TextReply(404, FileNotFound)
    else
      DispositionNamesFile(filename);
      FileReply(PdfType, Disposition(filename), filename)
  }

  /** The refusal of a ".." name does not depend on what is on disk. */
  lemma TraversalRefusedWhateverIsOnDisk(filename: string, generated1: set<string>, generated2: set<string>)
    requires Contains(filename, "..")
    ensures DownloadPdf(filename, generated1) == DownloadPdf(filename, generated2)
  {
  }

  // ---------- the two together ----------

  /** The service wired to the model, the decoder, the clock and the reading of the stored file. */
  function Wired(readBase64: string -> string, ai: string -> Service.AiReply,
                 parse: string -> Option<Service.Json>, now: nat): Optimizer
  {
    (path: string, jd: string) => Service.OptimizeCvForJob(readBase64(path), jd, ai, parse, now)
  }

  /**
   * Every file name the optimize request hands out passes the download guard:
   * once the generated file is on disk it is served under that name, and
   * while it is not, the reply is "not found" rather than "invalid".
   */
  lemma OptimizeThenDownload(req: OptimizeRequest, readBase64: string -> string,
                             ai: string -> Service.AiReply, parse: string -> Option<Service.Json>,
                             now: nat, generated: set<string>)
    ensures var resp := OptimizeForJob(req, Wired(readBase64, ai, parse, now));
      resp.status == 200 ==>
        && resp.body.pdfFilename == Service.GeneratedName(now)
        && DownloadPdf(resp.body.pdfFilename, generated + {resp.body.pdfFilename}).FileReply?
        && DownloadPdf(resp.body.pdfFilename, generated + {resp.body.pdfFilename}).file == Service.GeneratedName(now)
        && (resp.body.pdfFilename !in generated ==>
              DownloadPdf(resp.body.pdfFilename, generated) == TextReply(404, FileNotFound))
  {
    var resp := OptimizeForJob(req, Wired(readBase64, ai, parse, now));
    if resp.status == 200 {
      var r := Service.OptimizeCvForJob(readBase64(req.file.value.path), req.jobDescription.value, ai, parse, now);
      assert Wired(readBase64, ai, parse, now)(req.file.value.path, req.jobDescription.value) == r;
      Service.AnswerOutcome(ai(Service.Prompt(readBase64(req.file.value.path), req.jobDescription.value)), parse, now);
      Service.GeneratedNameHasNoDotDot(now);
    }
  }
}
