/**
 * The identity the auth middleware attaches to a request context, and
 * GetUserIDFromContext, which the article use-case reads it back with.
 */
module Auth {
  import opened Wrappers
  import opened Errorx
  import opened Domain

  /** dto.UserIDKey. */
  const UserIDKey := "userID"

  /** The int64 values a request context carries, by context key. */
  type Context = map<string, Int64>

  /** context.WithValue(ctx, UserIDKey, userID). */
  function WithUserID(ctx: Context, userId: Int64): Context
  {
    ctx[UserIDKey := userId]
  }

  /** JWTAuthService.GetUserIDFromContext: fails when no identity was attached. */
  function GetUserIDFromContext(ctx: Context): (r: Result<Int64, Error>)
    ensures r.Ok? <==> UserIDKey in ctx
    ensures r.Ok? ==> r.value == ctx[UserIDKey]
    ensures r.Err? ==> r.error == Plain("invalid user ID in context")
  {
    if UserIDKey in ctx then Ok(ctx[UserIDKey]) else Err(Plain("invalid user ID in context"))
  }

  /** Reading the identity back gives the id that was stored. */
  lemma WithUserIDReadBack(ctx: Context, userId: Int64)
    ensures GetUserIDFromContext(WithUserID(ctx, userId)) == Ok(userId)
  {
  }
}
