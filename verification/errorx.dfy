/**
 * The error taxonomy of the blog backend (package errorx): a fixed table from
 * business code to (message, HTTP status, log level), the DetailError that
 * wraps an underlying cause, and the Go `error` values the rest of the model
 * passes around.
 */
module Errorx {
  import opened Wrappers

  /** The zap log levels (zapcore.Level). */
  datatype Level = DebugLevel | InfoLevel | WarnLevel | ErrorLevel | DPanicLevel | PanicLevel | FatalLevel

  // Common errors (10xxx)
  const CodeSuccess := 0
  const CodeInternalServerError := 10001
  const CodeInvalidParams := 10002
  const CodeUnauthorized := 10003
  const CodeNotFound := 10004
  // User service errors (20xxx)
  const CodeUserAlreadyExists := 20001
  const CodeUserNotFound := 20002
  const CodeInvalidCredentials := 20003
  // Article service errors (30xxx)
  const CodeArticleNotFound := 30001

  // The net/http status constants the table uses.
  const StatusOK := 200
  const StatusBadRequest := 400
  const StatusUnauthorized := 401
  const StatusNotFound := 404
  const StatusInternalServerError := 500

  /** One row of the code table. */
  datatype Entry = Entry(code: int, message: string, httpStatus: int, logLevel: Level)

  /** The `codes` lookup table. */
  const Codes: map<int, Entry> := map[
    CodeSuccess             := Entry(CodeSuccess, "Success", StatusOK, InfoLevel),
    CodeInternalServerError := Entry(CodeInternalServerError, "Internal Server Error",
                                     StatusInternalServerError, ErrorLevel),
    CodeInvalidParams       := Entry(CodeInvalidParams, "Invalid Parameters", StatusBadRequest, WarnLevel),
    CodeUnauthorized        := Entry(CodeUnauthorized, "Unauthorized", StatusUnauthorized, WarnLevel),
    CodeNotFound            := Entry(CodeNotFound, "Resource Not Found", StatusNotFound, WarnLevel),
    CodeUserAlreadyExists   := Entry(CodeUserAlreadyExists, "User already exists",
                                     StatusBadRequest, WarnLevel),
    CodeUserNotFound        := Entry(CodeUserNotFound, "User not found", StatusNotFound, WarnLevel),
    CodeInvalidCredentials  := Entry(CodeInvalidCredentials, "Invalid username or password",
                                     StatusUnauthorized, WarnLevel),
    CodeArticleNotFound     := Entry(CodeArticleNotFound, "Article not found", StatusNotFound, WarnLevel)
  ]

  /** The user-facing part of an error: the only part a response body carries. */
  datatype BusinessError = BusinessError(code: int, message: string)

  /** The internal error object: business error, transport status, log level and the original cause. */
  datatype DetailError = DetailError(business: BusinessError, httpStatus: int, logLevel: Level, err: Error)

  /**
   * A Go `error` value as the core sees it: the repository's ErrNotFound
   * sentinel, any other error identified by its text, or a DetailError.
   * A nil error is never an Error; it is the absence of one (None / Ok).
   */
  datatype Error = ErrNotFound | Plain(text: string) | Detail(detail: DetailError)

  /** `err.Error()`: a DetailError reports its cause's text. */
  function Text(e: Error): string
  {
    match e
    case ErrNotFound => "not found"
    case Plain(t) => t
    case Detail(d) => Text(d.err)
  }

  /** `DetailError.Unwrap`. */
  function Unwrap(d: DetailError): Error
  {
    d.err
  }

  /** `errors.Is(e, repository.ErrNotFound)`: follows the Unwrap chain. */
  predicate IsNotFound(e: Error)
  {
    match e
    case ErrNotFound => true
    case Plain(_) => false
    case Detail(d) => IsNotFound(d.err)
  }

  /**
   * `errors.As(e, &detailErr)`: the first DetailError on the chain, which is
   * the error itself when it is one.
   */
  function AsDetail(e: Error): (r: Option<DetailError>)
    ensures r.Some? <==> e.Detail?
    ensures r.Some? ==> e == Detail(r.value)
  {
    match e
    case Detail(d) => Some(d)
    case _ => None
  }

  /**
   * `errorx.New(code, underlyingErr)`: looks the code up (unknown codes fall
   * back to the internal-error row) and keeps the given cause, or uses the
   * row's message as the cause when none is given.
   */
  function New(code: int, underlying: Option<Error>): (d: DetailError)
    ensures code in Codes ==>
      && d.business == BusinessError(code, Codes[code].message)
      && d.httpStatus == Codes[code].httpStatus
      && d.logLevel == Codes[code].logLevel
    ensures code !in Codes ==>
      && d.business == BusinessError(10001, "Internal Server Error")
      && d.httpStatus == 500
      && d.logLevel == ErrorLevel
    ensures underlying.None? ==>
      Unwrap(d) == Plain(d.business.message) && Text(Detail(d)) == d.business.message
    ensures underlying.Some? ==> Unwrap(d) == underlying.value && Text(Detail(d)) == Text(underlying.value)
  {
    var be := if code in Codes then Codes[code] else Codes[CodeInternalServerError];
    var err := if underlying.Some? then underlying.value else Plain(be.message);
    DetailError(BusinessError(be.code, be.message), be.httpStatus, be.logLevel, err)
  }

  /** `WithMessage`: overrides the business message and nothing else. */
  function WithMessage(d: DetailError, message: string): (r: DetailError)
    ensures r.business.message == message
    ensures r.business.code == d.business.code
    ensures r.httpStatus == d.httpStatus && r.logLevel == d.logLevel
    ensures Unwrap(r) == Unwrap(d)
    ensures Text(Detail(r)) == Text(Detail(d))
  {
    d.(business := d.business.(message := message))
  }

  /** The numeric range a code belongs to. */
  datatype Category = Common | UserDomain | ArticleDomain | Unknown

  function CategoryOf(code: int): Category
  {
    if code == 0 || 10001 <= code <= 10004 then Common
    else if 20001 <= code <= 20003 then UserDomain
    else if code == 30001 then ArticleDomain
    else Unknown
  }

  /** Every row's Code field equals its key. */
  lemma CodesAreSelfKeyed()
    ensures forall c :: c in Codes ==> Codes[c].code == c
  {
  }

  /** The table holds exactly the nine codes, partitioned by range. */
  lemma CodesPartitionedByRange()
    ensures Codes.Keys == {0, 10001, 10002, 10003, 10004, 20001, 20002, 20003, 30001}
    ensures forall c :: c in Codes <==> CategoryOf(c) != Unknown
  {
    assert Codes.Keys == {0, 10001, 10002, 10003, 10004, 20001, 20002, 20003, 30001};
  }

  /** Statuses come from a five-element set; Error level only for 10001, Info only for 0, Warn otherwise. */
  lemma CodesStatusesAndLevels()
    ensures forall c :: c in Codes ==> Codes[c].httpStatus in {200, 400, 401, 404, 500}
    ensures forall c :: c in Codes ==> (Codes[c].logLevel == ErrorLevel <==> c == CodeInternalServerError)
    ensures forall c :: c in Codes ==> (Codes[c].logLevel == InfoLevel <==> c == CodeSuccess)
    ensures forall c :: c in Codes && c != CodeSuccess && c != CodeInternalServerError ==>
      Codes[c].logLevel == WarnLevel
  {
  }

  /** Concrete rows the handlers and their tests rely on. */
  lemma CodesConcreteRows()
    ensures Codes[CodeArticleNotFound] == Entry(30001, "Article not found", 404, WarnLevel)
    ensures Codes[CodeInternalServerError] == Entry(10001, "Internal Server Error", 500, ErrorLevel)
    ensures Codes[CodeUserAlreadyExists].httpStatus == 400
    ensures Codes[CodeInvalidCredentials].httpStatus == 401
  {
  }

  /** New never loses its cause: the DetailError's text is the given cause's text, or the table message. */
  lemma NewErrorText(code: int, underlying: Option<Error>)
    ensures Text(Detail(New(code, underlying))) ==
      (if underlying.Some? then Text(underlying.value)
       else if code in Codes then Codes[code].message
       else "Internal Server Error")
  {
  }

  /** WithMessage changes the response message but not the logged text fixed at construction. */
  lemma WithMessageKeepsCause(code: int, underlying: Option<Error>, message: string)
    ensures var d := WithMessage(New(code, underlying), message);
      && d.business.message == message
      && Text(Detail(d)) == Text(Detail(New(code, underlying)))
      && (underlying.None? ==> Text(Detail(d)) == New(code, underlying).business.message)
  {
  }
}
