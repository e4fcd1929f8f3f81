/**
 * The decisions the Express application makes around the routes: which
 * origins CORS lets in, which responses are left uncompressed, the input
 * check of `POST /api/export-pdf`, and the global error handler's mapping
 * from an error to a status and body.
 *
 * The environment variables are a parameter; the middleware libraries
 * themselves (helmet, cors, compression, morgan, the rate limiter) are not
 * modelled beyond the callbacks the application hands them.
 */
module ServerConfig {
  import opened Common
  import opened Strings
  import opened JsValue
  import ChatRoutes

  // ---------------------------------------------------------------------
  // CORS
  // ---------------------------------------------------------------------

  /** The two environment variables read; `None` is unset. */
  datatype Env = Env(nodeEnv: Option<string>, allowedOrigins: Option<string>)

  /** An environment variable in a truthiness test: unset and "" are both falsy. */
  predicate EnvSet(v: Option<string>) { v.Some? && v.value != "" }

  const DefaultOrigins: seq<string> := ["http://localhost:5500", "http://127.0.0.1:5500", "http://localhost:3000"]

  /** `ALLOWED_ORIGINS.split(',')`, without trimming, or the default list. */
  function AllowedOrigins(env: Env): seq<string> {
    if EnvSet(env.allowedOrigins) then Split(env.allowedOrigins.value, ",") else DefaultOrigins
  }

  predicate InProduction(env: Env) { env.nodeEnv == Some("production") }

  datatype CorsDecision = Allow | Reject(message: string)

  /** The `origin` callback; `None` is a request without an `Origin` header. */
  function CorsOrigin(env: Env, origin: Option<string>): CorsDecision {
    if origin.None? || origin.value == "" then Allow
    else if InProduction(env) && (!EnvSet(env.allowedOrigins) || "*" in AllowedOrigins(env)) then Allow
    else if origin.value in AllowedOrigins(env) then Allow
    else Reject("Not allowed by CORS")
  }

  /**
   * A request without an origin is always let in; in production with the
   * list unset or holding "*" every origin is; otherwise exactly the origins
   * that are entries of the list, and the rest are refused with the one
   * message the error handler recognises.
   */
  lemma CorsPolicy(env: Env, origin: Option<string>)
    ensures origin.None? ==> CorsOrigin(env, origin) == Allow
    ensures InProduction(env) && (!EnvSet(env.allowedOrigins) || "*" in AllowedOrigins(env)) ==>
      CorsOrigin(env, origin) == Allow
    ensures origin.Some? && origin.value != "" && !InProduction(env) ==>
      (CorsOrigin(env, origin) == Allow <==> origin.value in AllowedOrigins(env))
    ensures CorsOrigin(env, origin).Reject? ==> CorsOrigin(env, origin).message == "Not allowed by CORS"
  {
  }

  /** Outside production "*" is an origin like any other: it lets in only the origin "*". */
  lemma StarOnlyInProduction(origin: string)
    requires origin != "" && origin != "*"
    ensures CorsOrigin(Env(Some("development"), Some("*")), Some(origin)) == Reject("Not allowed by CORS")
    ensures CorsOrigin(Env(Some("production"), Some("*")), Some(origin)) == Allow
  {
    SplitNoChar("*", ',');
  }

  /** The list is not trimmed: after "a, b" only "a" and " b" are origins, not "b". */
  lemma OriginsNotTrimmed()
    ensures CorsOrigin(Env(None, Some("a, b")), Some("b")) == Reject("Not allowed by CORS")
    ensures CorsOrigin(Env(None, Some("a, b")), Some(" b")) == Allow
  {
    assert "a, b" == "a" + "," + " b";
    assert ("a" + "," + " b")[0] == 'a';
    SplitFirst("a", ",", " b");
    SplitNoChar(" b", ',');
    assert AllowedOrigins(Env(None, Some("a, b"))) == ["a", " b"];
  }

  // ---------------------------------------------------------------------
  // Compression
  // ---------------------------------------------------------------------

  /**
   * The compression filter: a path containing "/chat/completions" is left
   * uncompressed unless the body's `stream` is exactly `false`; every
   * other request goes to the library's own filter, `defaultFilter`.
   * `None` is a request without a parsed body.
   */
  function Compress(path: string, body: Option<map<string, JSValue>>, defaultFilter: bool): bool {
    var stream := if body.Some? && "stream" in body.value then body.value["stream"] else JUndefined;
    if Contains(path, "/chat/completions") && stream != JBool(false) then false
    else defaultFilter
  }

  /** The chat router is mounted at "/api/chat"; its streaming route is "/completions". */
  const ChatCompletionsPath: string := "/api" + "/chat/completions"

  lemma PathContainsRoute(before: string, after: string)
    ensures Contains(before + "/chat/completions" + after, "/chat/completions")
  {
    assert OccursAt("/chat/completions", "/chat/completions", 0);
    ContainedInside(before, "/chat/completions", after, "/chat/completions");
  }

  /**
   * On the streaming chat route the filter agrees with the handler: an
   * accepted request is compressed (as far as the library's filter allows)
   * exactly when it asked not to stream.
   */
  lemma CompressionFollowsStreaming(body: map<string, JSValue>, defaultFilter: bool)
    requires ChatRoutes.Completions(body).Proceed?
    ensures ChatRoutes.Completions(body).params.stream ==> !Compress(ChatCompletionsPath, Some(body), defaultFilter)
    ensures !ChatRoutes.Completions(body).params.stream ==>
      Compress(ChatCompletionsPath, Some(body), defaultFilter) == defaultFilter
  {
    PathContainsRoute("/api", "");
    AppendEmpty(ChatCompletionsPath);
    StreamOfAccepted(body);
    CompressOnRoute(ChatCompletionsPath, body, ChatRoutes.Completions(body).params.stream, defaultFilter);
  }

  /** An accepted request's `stream` field, absent meaning `true`, is the boolean the handler uses. */
  lemma StreamOfAccepted(body: map<string, JSValue>)
    requires ChatRoutes.Completions(body).Proceed?
    ensures FieldOr(body, "stream", JBool(true)) == JBool(ChatRoutes.Completions(body).params.stream)
  {
  }

  lemma CompressOnRoute(path: string, body: map<string, JSValue>, stream: bool, defaultFilter: bool)
    requires Contains(path, "/chat/completions")
    requires FieldOr(body, "stream", JBool(true)) == JBool(stream)
    ensures stream ==> !Compress(path, Some(body), defaultFilter)
    ensures !stream ==> Compress(path, Some(body), defaultFilter) == defaultFilter
  {
  }

  /** The non-streaming route's path contains the streaming one's, so it is left uncompressed too. */
  lemma NonStreamPathUncompressed(defaultFilter: bool)
    ensures !Compress("/api" + "/chat/completions" + "/non-stream", None, defaultFilter)
  {
    PathContainsRoute("/api", "/non-stream");
  }

  // ---------------------------------------------------------------------
  // POST /api/export-pdf
  // ---------------------------------------------------------------------

  /** What is written, as JSON, to the report generator's standard input. */
  datatype ExportInput = ExportInput(messages: seq<JSValue>, reportType: JSValue, reportTitle: JSValue)

  /** How the generator run ended: the exit code, its standard error, and whether the PDF exists. */
  datatype GeneratorRun = GeneratorRun(code: int, stderr: string, pdfCreated: bool)

  datatype ExportReply =
    | Pdf                                                  // the file, as an attachment
    | ExportFailed(status: nat, error: string, details: string)

  /** The input check and the destructuring defaults. */
  function ExportRequest(body: map<string, JSValue>): (r: Result<ExportInput, string>)
    ensures r.Ok? <==> FieldOr(body, "messages", JUndefined).JArr?
    ensures r.Ok? ==> r.value.messages == FieldOr(body, "messages", JUndefined).items
    ensures r.Ok? && "reportType" !in body ==> r.value.reportType == JStr("general")
    ensures r.Ok? && "reportTitle" !in body ==> r.value.reportTitle == JStr("Chat Export")
    ensures r.Err? ==> r.error == "Invalid messages format"
  {
    var messages := FieldOr(body, "messages", JUndefined);
    if !Truthy(messages) || !messages.JArr? then Err("Invalid messages format")
    else Ok(ExportInput(messages.items, FieldOr(body, "reportType", JStr("general")),
                        FieldOr(body, "reportTitle", JStr("Chat Export"))))
  }

  /**
   * The handler, with the existence of the script and the generator run as
   * parameters; a failed run reports at most the first 300 characters of
   * its standard error.
   */
  function ExportPdf(body: map<string, JSValue>, scriptExists: bool, run: ExportInput -> GeneratorRun): (r: ExportReply)
    ensures FieldOr(body, "messages", JUndefined).JArr? <==> !(r.ExportFailed? && r.status == 400)
    ensures r.Pdf? ==>
      scriptExists && ExportRequest(body).Ok?
      && run(ExportRequest(body).value).code == 0 && run(ExportRequest(body).value).pdfCreated
    ensures r.ExportFailed? && r.error == "Failed to generate PDF" ==>
      ExportRequest(body).Ok? &&
      var stderr := run(ExportRequest(body).value).stderr;
      |r.details| <= 300 && |r.details| <= |stderr| && r.details == stderr[..|r.details|]
  {
    match ExportRequest(body)
    case Err(m) => ExportFailed(400, m, "")
    case Ok(input) =>
      if !scriptExists then
        ExportFailed(500, "Failed to export PDF", "")
      else
        var outcome := run(input);
        if outcome.code != 0 then ExportFailed(500, "Failed to generate PDF", Slice(outcome.stderr, 0, 300))
        else if !outcome.pdfCreated then ExportFailed(500, "PDF file was not created", "")
        else Pdf
  }

  // ---------------------------------------------------------------------
  // The global error handler
  // ---------------------------------------------------------------------

  /** An error reaching the handler; "" and 0 stand for an absent name, message or status. */
  datatype ServerError = ServerError(name: string, message: string, status: int)

  datatype ErrorReply = ErrorReply(status: int, error: string, message: string)

  function HandleError(err: ServerError): (r: ErrorReply)
    ensures r.status != 0
  {
    if err.name == "ValidationError" then ErrorReply(400, "Validation Error", err.message)
    else if err.name == "UnauthorizedError" then ErrorReply(401, "Unauthorized", "Invalid or missing authentication")
    else if err.message == "Invalid JSON" then ErrorReply(400, "Bad Request", "Invalid JSON in request body")
    else if err.message == "Not allowed by CORS" then
      ErrorReply(403, "Forbidden", "CORS policy does not allow access from this origin")
    else ErrorReply(if err.status != 0 then err.status else 500,
                    if err.name != "" then err.name else "Internal Server Error",
                    if err.message != "" then err.message else "An unexpected error occurred")
  }

  /**
   * The statuses the handler can give: 400, 401 and 403 only for the four
   * recognised errors (a status the error itself carries aside), and 500
   * for an unrecognised error without a status.
   */
  lemma ErrorStatuses(err: ServerError)
    ensures HandleError(err).status == 401 <==>
      (err.name == "UnauthorizedError" || (UnrecognisedError(err) && err.status == 401))
    ensures HandleError(err).status == 403 <==>
      (RecognisedMessage(err, "Not allowed by CORS") || (UnrecognisedError(err) && err.status == 403))
    ensures HandleError(err).status == 500 <==>
      (UnrecognisedError(err) && (err.status == 0 || err.status == 500))
    ensures HandleError(err).status == 400 <==>
      (err.name == "ValidationError" || RecognisedMessage(err, "Invalid JSON")
       || (UnrecognisedError(err) && err.status == 400))
  {
  }

  /** The name checks come first: neither of the two message checks reaches a named error. */
  predicate RecognisedMessage(err: ServerError, message: string) {
    err.name != "ValidationError" && err.name != "UnauthorizedError" && err.message == message
  }

  predicate UnrecognisedError(err: ServerError) {
    err.name != "ValidationError" && err.name != "UnauthorizedError"
    && err.message != "Invalid JSON" && err.message != "Not allowed by CORS"
  }

  /** A refused origin, thrown as a plain `Error`, is answered 403 Forbidden. */
  lemma CorsRejectionIsForbidden(env: Env, origin: Option<string>)
    requires CorsOrigin(env, origin).Reject?
    ensures HandleError(ServerError("Error", CorsOrigin(env, origin).message, 0)).status == 403
  {
  }

  /** A body the JSON parser's `verify` hook refuses is answered 400, whatever status the parser attached. */
  lemma InvalidJsonIsBadRequest(status: int)
    ensures HandleError(ServerError("Error", "Invalid JSON", status)) == ErrorReply(400, "Bad Request", "Invalid JSON in request body")
  {
  }
}
