/**
 * ErrorHandler's decision once the handler chain has run: nothing when no
 * error was collected; otherwise the first collected error alone decides.
 * A DetailError answers with its own status and business error and is
 * logged at its level (Warn stays Warn, every other level becomes Error);
 * any other error answers 500 with the internal-error business body.
 */
module ErrorMiddleware {
  import opened Wrappers
  import opened Errorx

  /** The JSON response: status and the {code, message} body. */
  datatype Response = Response(status: int, body: BusinessError)

  /** The log call: level and message text. */
  datatype LogRecord = LogRecord(level: Level, message: string)

  datatype Handled = Handled(response: Response, log: LogRecord)

  function HandleErrors(errs: seq<Error>): (r: Option<Handled>)
    ensures r.None? <==> |errs| == 0
    ensures r.Some? ==> r.value.log.message == Text(errs[0])
    ensures r.Some? && errs[0].Detail? ==>
      && r.value.response == Response(errs[0].detail.httpStatus, errs[0].detail.business)
      && r.value.log.level == (if errs[0].detail.logLevel == WarnLevel then WarnLevel else ErrorLevel)
    ensures r.Some? && !errs[0].Detail? ==>
      r.value == Handled(Response(500, BusinessError(10001, "Internal Server Error")),
                         LogRecord(ErrorLevel, Text(errs[0])))
  {
    if |errs| == 0 then None
    else
      var err := errs[0];
      match AsDetail(err)
      case Some(d) =>
        var level := match d.logLevel
          case WarnLevel => WarnLevel
          case ErrorLevel => ErrorLevel
          case _ => ErrorLevel;
        Some(Handled(Response(d.httpStatus, d.business), LogRecord(level, Text(err))))
      case None =>
        var internal := New(CodeInternalServerError, None);
        Some(Handled(Response(internal.httpStatus, internal.business), LogRecord(ErrorLevel, Text(err))))
  }

  /** Errors after the first are never looked at. */
  lemma OnlyFirstErrorCounts(errs: seq<Error>, later: seq<Error>)
    requires |errs| >= 1
    ensures HandleErrors(errs + later) == HandleErrors([errs[0]])
  {
    assert (errs + later)[0] == errs[0];
  }

  /** The cause never reaches the response: two DetailErrors differing only in cause get the same response. */
  lemma CauseNeverInResponse(d: DetailError, cause: Error)
    ensures HandleErrors([Detail(d)]).value.response ==
            HandleErrors([Detail(d.(err := cause))]).value.response
  {
  }

  /** Info-level DetailErrors are logged at Error, like every level other than Warn. */
  lemma InfoLoggedAsError(d: DetailError)
    requires d.logLevel == InfoLevel
    ensures HandleErrors([Detail(d)]).value.log.level == ErrorLevel
  {
  }

  /** A DetailError built by New answers with the table's status and message for its code. */
  lemma NewErrorResponse(code: int, cause: Option<Error>)
    requires code in Codes
    ensures HandleErrors([Detail(New(code, cause))]).value.response ==
      Response(Codes[code].httpStatus, BusinessError(code, Codes[code].message))
  {
  }

  /** The mappings the handler tests expect. */
  lemma ResponseExamples()
    ensures HandleErrors([Detail(New(CodeArticleNotFound, Some(ErrNotFound)))]).value.response ==
      Response(404, BusinessError(30001, "Article not found"))
    ensures HandleErrors([Detail(New(CodeUserAlreadyExists, None))]).value.response ==
      Response(400, BusinessError(20001, "User already exists"))
    ensures var invalid := Detail(New(CodeInvalidCredentials, Some(Plain("invalid credentials"))));
      HandleErrors([invalid]).value.response ==
      Response(401, BusinessError(20003, "Invalid username or password"))
    ensures HandleErrors([Plain("boom")]).value.response ==
      Response(500, BusinessError(10001, "Internal Server Error"))
  {
  }
}
