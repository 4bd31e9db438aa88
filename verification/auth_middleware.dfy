/**
 * AuthMiddleware's decision: the Authorization header must be "Bearer "
 * followed by a token with no further space; the token validator is then
 * consulted and, on success, the user id is attached to the context.
 */
module AuthMiddleware {
  import opened Wrappers
  import opened Errorx
  import opened Domain
  import opened Auth
  import GoStrings

  /** Abort: the chain stops with a 401 and {"error": message}. Next: the chain continues with the context. */
  datatype Outcome = Abort(status: int, message: string) | Next(ctx: Context)

  /** The outcome, and the token handed to the validator if it was called. */
  datatype AuthRun = AuthRun(outcome: Outcome, validated: Option<string>)

  const MissingHeader := "authorization header is required"
  const BadFormat := "invalid token format"
  const BadToken := "invalid token"
  const BearerPrefix := "Bearer "

  /** The header check and token validation. `validate` is AuthService.ValidateToken. */
  function Authenticate(header: string, ctx: Context, validate: string -> Result<Int64, Error>): (r: AuthRun)
    ensures header == "" ==> r == AuthRun(Abort(401, MissingHeader), None)
    ensures r.outcome.Abort? ==> r.outcome.status == 401
    ensures r.validated.Some? <==> header != "" && HasBearerFormat(header)
    ensures r.validated.Some? ==> r.validated.value == header[|BearerPrefix|..]
    ensures r.outcome.Next? <==> r.validated.Some? && validate(r.validated.value).Ok?
    ensures r.outcome.Next? ==> GetUserIDFromContext(r.outcome.ctx) == validate(r.validated.value)
    ensures header != "" && !HasBearerFormat(header) ==> r == AuthRun(Abort(401, BadFormat), None)
    ensures r.validated.Some? && validate(r.validated.value).Err? ==> r.outcome == Abort(401, BadToken)
  {
    if header == "" then AuthRun(Abort(401, MissingHeader), None)
    else
      var parts := GoStrings.Split(header, ' ');
      BearerFormat(header);
      if |parts| != 2 || parts[0] != "Bearer" then AuthRun(Abort(401, BadFormat), None)
      else
        match validate(parts[1])
        case Err(_) => AuthRun(Abort(401, BadToken), Some(parts[1]))
        case Ok(userId) => AuthRun(Next(WithUserID(ctx, userId)), Some(parts[1]))
  }

  /** "Bearer ", then a token (possibly empty) with no space in it. */
  predicate HasBearerFormat(header: string)
  {
    |header| >= |BearerPrefix| && header[..|BearerPrefix|] == BearerPrefix && ' ' !in header[|BearerPrefix|..]
  }

  /** A header of two parts joined by one space is the first part, a space and the second. */
  lemma TwoPartsJoin(h: string)
    requires |GoStrings.Split(h, ' ')| == 2
    ensures var parts := GoStrings.Split(h, ' ');
      h == parts[0] + [' '] + parts[1]
  {
    var parts := GoStrings.Split(h, ' ');
    GoStrings.JoinSplit(h, ' ');
    assert parts[1..] == [parts[1]];
  }

  /** A well-formed bearer header has its only space at index 6. */
  lemma BearerHeaderSpaces(h: string)
    requires HasBearerFormat(h)
    ensures h[6] == ' '
    ensures forall j :: 0 <= j < |h| && j != 6 ==> h[j] != ' '
  {
    var t := h[7..];
    forall j | 0 <= j < |h| && j != 6 ensures h[j] != ' ' {
      if j < 6 {
        assert h[j] == BearerPrefix[j];
      } else {
        assert h[j] == t[j - 7];
      }
    }
  }

  /** A well-formed bearer header splits into exactly two parts. */
  lemma BearerHeaderHasTwoParts(h: string)
    requires HasBearerFormat(h)
    ensures |GoStrings.Split(h, ' ')| == 2
  {
    var t := h[7..];
    assert h == BearerPrefix + t;
    GoStrings.CountAppend(BearerPrefix, t, ' ');
    GoStrings.CountAbsent(t, ' ');
    assert GoStrings.Count(BearerPrefix, ' ') == 1;
  }

  /** A well-formed bearer header splits into "Bearer" and its token. */
  lemma BearerHeaderSplits(h: string)
    requires HasBearerFormat(h)
    ensures var parts := GoStrings.Split(h, ' ');
      |parts| == 2 && parts[0] == "Bearer" && parts[1] == h[|BearerPrefix|..]
  {
    BearerHeaderHasTwoParts(h);
    BearerHeaderSpaces(h);
    TwoPartsJoin(h);
    var parts := GoStrings.Split(h, ' ');
    var p0, p1 := parts[0], parts[1];
    assert ' ' !in p0;
    assert h[|p0|] == ' ';
    assert |p0| == 6;
    assert p0 == h[..6];
    assert p1 == h[7..];
  }

  /**
   * Splitting on " " gives exactly two parts with "Bearer" first iff the
   * header is "Bearer " and a space-free token; the second part is that token.
   */
  lemma BearerFormat(h: string)
    ensures var parts := GoStrings.Split(h, ' ');
      (|parts| == 2 && parts[0] == "Bearer") <==> HasBearerFormat(h)
    ensures var parts := GoStrings.Split(h, ' ');
      HasBearerFormat(h) ==> |parts| == 2 && parts[1] == h[|BearerPrefix|..]
  {
    var parts := GoStrings.Split(h, ' ');
    if |parts| == 2 {
      TwoPartsJoin(h);
    }
    if HasBearerFormat(h) {
      BearerHeaderSplits(h);
    }
  }

  /** A missing header aborts before the validator is consulted. */
  lemma EmptyHeaderAborts(ctx: Context, validate: string -> Result<Int64, Error>)
    ensures Authenticate("", ctx, validate) == AuthRun(Abort(401, "authorization header is required"), None)
  {
  }

  /** The scheme is case-sensitive: a lower-case "bearer" is a format error. */
  lemma LowerCaseSchemeRejected(ctx: Context, validate: string -> Result<Int64, Error>)
    ensures Authenticate("bearer x", ctx, validate) == AuthRun(Abort(401, "invalid token format"), None)
  {
    var g := "bearer x";
    assert g[..7][0] != BearerPrefix[0];
  }

  /** A second space makes the header a format error. */
  lemma DoubleSpaceRejected(ctx: Context, validate: string -> Result<Int64, Error>)
    ensures Authenticate("Bearer  x", ctx, validate) == AuthRun(Abort(401, "invalid token format"), None)
  {
    var h := "Bearer  x";
    assert h[7] == ' ';
    assert !HasBearerFormat(h);
  }

  /** The scheme alone, without the space, is a format error. */
  lemma BareSchemeRejected(ctx: Context, validate: string -> Result<Int64, Error>)
    ensures Authenticate("Bearer", ctx, validate) == AuthRun(Abort(401, "invalid token format"), None)
  {
    assert !HasBearerFormat("Bearer");
  }

  /** "Bearer " with nothing after it hands the empty token to the validator. */
  lemma EmptyTokenValidated(ctx: Context, validate: string -> Result<Int64, Error>)
    ensures Authenticate("Bearer ", ctx, validate).validated == Some("")
  {
    var h := "Bearer ";
    assert h[..7] == BearerPrefix;
    assert HasBearerFormat(h);
  }

  /** A rejected token aborts with "invalid token"; an accepted one attaches its user id. */
  lemma ValidatorOutcome(token: string, ctx: Context, validate: string -> Result<Int64, Error>)
    requires ' ' !in token
    ensures var r := Authenticate(BearerPrefix + token, ctx, validate);
      && r.validated == Some(token)
      && (validate(token).Err? ==> r.outcome == Abort(401, "invalid token"))
      && (validate(token).Ok? ==> r.outcome == Next(WithUserID(ctx, validate(token).value)))
  {
    var h := BearerPrefix + token;
    assert h[|BearerPrefix|..] == token;
    assert h[..|BearerPrefix|] == BearerPrefix;
    BearerFormat(h);
  }
}
