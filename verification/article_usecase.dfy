/**
 * The article use-case: cache-aside reads that fail open toward the store,
 * identity and ownership checks on writes, and eviction of the single
 * article entry after an update or delete, whose failure the caller sees.
 * Each operation maps a world to an outcome, the trace of port calls it
 * made, and the world after those calls.
 */
module ArticleUsecase {
  import opened Wrappers
  import opened Errorx
  import opened Domain
  import opened Auth
  import opened ArticlePorts
  import opened Persistence
  import CacheKeys

  /** time.Duration counts nanoseconds. */
  const Second := 1_000_000_000
  const Minute := 60 * Second
  /** The expiration every cache write-back is given: 5 * time.Minute. */
  const CacheTTL := 5 * Minute

  /** The fixed key of the collection entry. */
  const ArticlesCacheKey := CacheKeys.CollectionKey

  datatype Run<T> = Run(outcome: Result<T, Error>, trace: seq<Call>, world: World)

  /** The outcome is a DetailError with the given business code. */
  predicate FailsWith<T>(o: Result<T, Error>, code: int)
  {
    o.Err? && o.error.Detail? && o.error.detail.business.code == code
  }

  /** errorx.New(code, cause) returned with the world untouched. */
  function Fail<T>(code: int, cause: Error, trace: seq<Call>, w: World): (r: Run<T>)
    ensures code in Codes ==> FailsWith(r.outcome, code)
    ensures r.outcome.Err? && r.outcome.error.Detail? && Unwrap(r.outcome.error.detail) == cause
    ensures r.trace == trace && r.world == w
  {
    Run(Err(Detail(New(code, Some(cause)))), trace, w)
  }

  /** A store read failure: ErrNotFound is ArticleNotFound, anything else InternalServerError. */
  function StoreReadCode(e: Error): (code: int)
    ensures code == CodeArticleNotFound <==> IsNotFound(e)
    ensures code in {CodeArticleNotFound, CodeInternalServerError}
  {
    if IsNotFound(e) then CodeArticleNotFound else CodeInternalServerError
  }

  /**
   * CreateArticle: identity, then AuthorID := identity, then Validate, then
   * repo.Create. The result is the caller's article with the author set;
   * the repository inserts a copy, so the id the store assigns stays there.
   */
  function CreateArticle(w: World, article: Article): (r: Run<Article>)
    ensures 1 <= |r.trace| && r.trace[0] == GetUserID
    ensures r.outcome.Ok? <==>
      && UserIDKey in w.ctx
      && ValidateArticle(article.(authorId := w.ctx[UserIDKey])).None?
      && w.faults.storeWrite.None?
      && InsertId(article.id, w.nextId) !in w.store
    ensures r.outcome.Ok? ==> r.outcome.value == article.(authorId := w.ctx[UserIDKey])
    ensures r.outcome.Ok? ==>
      var id := InsertId(article.id, w.nextId);
      && r.world.store == w.store[id := r.outcome.value.(id := id, tags := [])]
      && r.world.nextId == NextCounter(article.id, w.nextId)
      && r.world.cache == w.cache && r.world.collection == w.collection
    ensures r.outcome.Err? ==> r.world == w
    ensures UserIDKey !in w.ctx ==> FailsWith(r.outcome, CodeUnauthorized) && r.trace == [GetUserID]
    ensures UserIDKey in w.ctx && ValidateArticle(article.(authorId := w.ctx[UserIDKey])).Some? ==>
      FailsWith(r.outcome, CodeInvalidParams) && r.trace == [GetUserID]
  {
    match GetUserIDFromContext(w.ctx)
    case Err(e) => Fail(CodeUnauthorized, e, [GetUserID], w)
    case Ok(userId) =>
      var a := article.(authorId := userId);
      match ValidateArticle(a)
      case Some(invalid) => Fail(CodeInvalidParams, invalid, [GetUserID], w)
      case None =>
        var trace := [GetUserID, RepoCreate(a)];
        match StoreCreate(w, a)
        case Err(e) => Fail(CodeInternalServerError, e, trace, w)
        case Ok(w') => Run(Ok(a), trace, w')
  }

  /**
   * GetArticleByID: cache first; on a miss the store, then a best-effort
   * write-back. SetArticle writes under the signed id; for a negative id
   * that key is one no read or eviction uses
   * (CacheKeys.NegativeSetKeyIsNeverRead), so the id-indexed cache does not
   * gain the entry.
   */
  function GetArticleByID(w: World, id: Int64): (r: Run<Article>)
    ensures 1 <= |r.trace| && r.trace[0] == CacheGetArticle(CacheKeys.ArticleKey(id))
    ensures id in w.cache ==> r == Run(Ok(w.cache[id]), [CacheGetArticle(CacheKeys.ArticleKey(id))], w)
    ensures id !in w.cache ==> 2 <= |r.trace| && r.trace[1] == RepoGetByID(id)
    ensures id !in w.cache && r.outcome.Ok? ==>
      && r.trace == [CacheGetArticle(CacheKeys.ArticleKey(id)), RepoGetByID(id),
                     CacheSetArticle(CacheKeys.SetKey(r.outcome.value.id), r.outcome.value, CacheTTL)]
      && r.outcome.value.tags == []
    ensures r.outcome.Err? ==>
      FailsWith(r.outcome, CodeArticleNotFound) || FailsWith(r.outcome, CodeInternalServerError)
    ensures r.world.store == w.store && r.world.collection == w.collection
    ensures r.world.cache != w.cache ==>
      && w.faults.cacheWrite.None? && r.outcome.Ok? && r.outcome.value.id >= 0
      && r.world.cache == w.cache[r.outcome.value.id := r.outcome.value]
  {
    var key := CacheKeys.ArticleKey(id);
    if id in w.cache then Run(Ok(w.cache[id]), [CacheGetArticle(key)], w)
    else
      var trace := [CacheGetArticle(key), RepoGetByID(id)];
      match StoreGetByID(w, id)
      case Err(e) => Fail(StoreReadCode(e), e, trace, w)
      case Ok(a) =>
        var w' := if w.faults.cacheWrite.None? && a.id >= 0 then w.(cache := w.cache[a.id := a]) else w;
        Run(Ok(a), trace + [CacheSetArticle(CacheKeys.SetKey(a.id), a, CacheTTL)], w')
  }

  /**
   * GetAllArticles: the same cache-aside read over the "articles:all" entry;
   * every store failure is internal.
   */
  function GetAllArticles(w: World): (r: Run<seq<Article>>)
    ensures 1 <= |r.trace| && r.trace[0] == CacheGetArticles("articles:all")
    ensures w.collection.Some? ==> r == Run(Ok(w.collection.value), [CacheGetArticles("articles:all")], w)
    ensures w.collection.None? && w.faults.storeRead.None? ==> r.outcome == Ok(Listing(w.store))
    ensures r.outcome.Err? ==> FailsWith(r.outcome, CodeInternalServerError)
    ensures r.world.store == w.store && r.world.cache == w.cache
  {
    if w.collection.Some? then Run(Ok(w.collection.value), [CacheGetArticles(ArticlesCacheKey)], w)
    else
      var trace := [CacheGetArticles(ArticlesCacheKey), RepoGetAll];
      match StoreGetAll(w)
      case Err(e) => Fail(CodeInternalServerError, e, trace, w)
      case Ok(articles) =>
        var w' := if w.faults.cacheWrite.None? then w.(collection := Some(articles)) else w;
        Run(Ok(articles), trace + [CacheSetArticles(ArticlesCacheKey, articles, CacheTTL)], w')
  }

  /** The identity and ownership checks shared by update and delete. */
  datatype Gate = Pass(userId: Int64, trace: seq<Call>) | Stop(error: Error, trace: seq<Call>)

  function OwnerGate(w: World, id: Int64, denial: string): (g: Gate)
    ensures g.Pass? <==>
      && UserIDKey in w.ctx
      && StoreGetByID(w, id).Ok?
      && StoreGetByID(w, id).value.authorId == w.ctx[UserIDKey]
    ensures g.Pass? ==> g.userId == w.ctx[UserIDKey] && g.trace == [GetUserID, RepoGetByID(id)]
    ensures g.Stop? ==>
      && g.error.Detail?
      && g.error.detail.business.code in {CodeUnauthorized, CodeArticleNotFound, CodeInternalServerError}
    ensures g.Stop? && UserIDKey !in w.ctx ==>
      g.trace == [GetUserID] && g.error.detail.business.code == CodeUnauthorized
    ensures g.Stop? && UserIDKey in w.ctx ==> g.trace == [GetUserID, RepoGetByID(id)]
  {
    match GetUserIDFromContext(w.ctx)
    case Err(e) => Stop(Detail(New(CodeUnauthorized, Some(e))), [GetUserID])
    case Ok(userId) =>
      var trace := [GetUserID, RepoGetByID(id)];
      match StoreGetByID(w, id)
      case Err(e) => Stop(Detail(New(StoreReadCode(e), Some(e))), trace)
      case Ok(existing) =>
        if existing.authorId != userId then Stop(Detail(New(CodeUnauthorized, Some(Plain(denial)))), trace)
        else Pass(userId, trace)
  }

  /** cache.DeleteArticle after a successful write; its error is returned as it came, not wrapped. */
  function Evict(w: World, id: Int64, trace: seq<Call>): (r: Run<()>)
    ensures r.trace == trace + [CacheDeleteArticle(CacheKeys.ArticleKey(id))]
    ensures w.faults.cacheEvict.Some? ==> r.outcome == Err(w.faults.cacheEvict.value) && r.world == w
    ensures w.faults.cacheEvict.None? ==> r.outcome.Ok? && r.world == w.(cache := w.cache - {id})
  {
    var trace' := trace + [CacheDeleteArticle(CacheKeys.ArticleKey(id))];
    match w.faults.cacheEvict
    case Some(e) => Run(Err(e), trace', w)
    case None => Run(Ok(()), trace', w.(cache := w.cache - {id}))
  }

  const UpdateDenied := "user not authorized to update this article"
  const DeleteDenied := "user not authorized to delete this article"

  /**
   * UpdateArticle as the code has it: Save(FromDomain(article)) writes every
   * column of the caller's article, AuthorID included; its tags are dropped.
   */
  function UpdateArticle(w: World, article: Article): (r: Run<()>)
    ensures r.outcome.Ok? ==> OwnerGate(w, article.id, UpdateDenied).Pass? && w.faults.storeWrite.None?
    ensures r.world.store != w.store ==>
      && UserIDKey in w.ctx && article.id in w.store
      && w.store[article.id].authorId == w.ctx[UserIDKey]
      && r.world.store == w.store[article.id := article.(tags := [])]
    ensures r.world.collection == w.collection
    ensures r.world.nextId == w.nextId
  {
    match OwnerGate(w, article.id, UpdateDenied)
    case Stop(e, trace) => Run(Err(e), trace, w)
    case Pass(_, trace) =>
      var trace' := trace + [RepoUpdate(article)];
      match w.faults.storeWrite
      case Some(e) => Fail(CodeInternalServerError, e, trace', w)
      case None => Evict(w.(store := w.store[article.id := Persisted(article)]), article.id, trace')
  }

  /** DeleteArticle: the same checks, then repo.Delete and the eviction. */
  function DeleteArticle(w: World, id: Int64): (r: Run<()>)
    ensures r.outcome.Ok? ==> OwnerGate(w, id, DeleteDenied).Pass? && w.faults.storeWrite.None?
    ensures r.world.store != w.store ==>
      && UserIDKey in w.ctx && id in w.store
      && w.store[id].authorId == w.ctx[UserIDKey]
      && r.world.store == w.store - {id}
    ensures r.world.collection == w.collection
    ensures r.world.nextId == w.nextId
  {
    match OwnerGate(w, id, DeleteDenied)
    case Stop(e, trace) => Run(Err(e), trace, w)
    case Pass(_, trace) =>
      var trace' := trace + [RepoDelete(id)];
      match w.faults.storeWrite
      case Some(e) => Fail(CodeInternalServerError, e, trace', w)
      case None => Evict(w.(store := w.store - {id}), id, trace')
  }

  /**
   * UpdateArticle with the author pinned to the acting identity before the
   * write, as CreateArticle does; the corrected form of UpdateArticle.
   */
  function UpdateArticleAsOwner(w: World, article: Article): (r: Run<()>)
    ensures r.world.store != w.store ==>
      && UserIDKey in w.ctx && article.id in w.store
      && w.store[article.id].authorId == w.ctx[UserIDKey]
      && article.id in r.world.store
      && r.world.store[article.id].authorId == w.store[article.id].authorId
    ensures r.world.nextId == w.nextId
  {
    match OwnerGate(w, article.id, UpdateDenied)
    case Stop(e, trace) => Run(Err(e), trace, w)
    case Pass(userId, trace) =>
      var owned := article.(authorId := userId);
      var trace' := trace + [RepoUpdate(owned)];
      match w.faults.storeWrite
      case Some(e) => Fail(CodeInternalServerError, e, trace', w)
      case None => Evict(w.(store := w.store[article.id := Persisted(owned)]), article.id, trace')
  }

  /**
   * CreateArticle with the id the store assigned copied back into the
   * caller's article; the corrected form of CreateArticle, whose result
   * keeps the caller's id.
   */
  function CreateArticleWithId(w: World, article: Article): (r: Run<Article>)
    ensures r.outcome.Ok? ==>
      && r.outcome.value.id in r.world.store
      && r.world.store[r.outcome.value.id] == r.outcome.value.(tags := [])
      && r.outcome.value.tags == article.tags
  {
    var created := CreateArticle(w, article);
    match created.outcome
    case Err(_) => created
    case Ok(a) =>
      var id := InsertId(article.id, w.nextId);
      created.(outcome := Ok(a.(id := id)))
  }
}
