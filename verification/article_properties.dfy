/**
 * Properties of the article use-case: who may write, what the cache-aside
 * reads return, which cache entries each operation touches, and the
 * coherence of the per-article cache with the store.
 */
module ArticleProperties {
  import opened Wrappers
  import opened Errorx
  import opened Domain
  import opened Auth
  import opened ArticlePorts
  import opened ArticleUsecase
  import opened Persistence
  import CacheKeys
  import AuthMiddleware
  import ErrorMiddleware

  // ----- CreateArticle -----

  /** Without an identity the outcome is Unauthorized whatever the article, and nothing else is called. */
  lemma CreateWithoutIdentity(w: World, a: Article, b: Article)
    requires UserIDKey !in w.ctx
    ensures CreateArticle(w, a).outcome == CreateArticle(w, b).outcome
    ensures FailsWith(CreateArticle(w, a).outcome, CodeUnauthorized)
    ensures CreateArticle(w, a).trace == [GetUserID] && CreateArticle(w, a).world == w
  {
  }

  /** The caller's AuthorID is ignored: the identity is written over it before validation. */
  lemma CreateIgnoresCallerAuthor(w: World, a: Article, author: Int64)
    ensures CreateArticle(w, a.(authorId := author)) == CreateArticle(w, a)
  {
  }

  /** A validation failure is InvalidParams carrying the validation message, and repo.Create is not called. */
  lemma CreateValidationFailure(w: World, a: Article)
    requires UserIDKey in w.ctx && a.title == ""
    ensures var r := CreateArticle(w, a);
      && FailsWith(r.outcome, CodeInvalidParams)
      && Text(r.outcome.error) == "title is required"
      && r.trace == [GetUserID]
      && r.world == w
  {
  }

  /** The cases of the use-case test: success, missing title, missing identity. */
  lemma CreateExamples(w: World)
    requires w.ctx == map[UserIDKey := 1] && w.faults.storeWrite.None?
    requires CounterAhead(w) && w.nextId < MaxInt64
    ensures CreateArticle(w, Article(0, "Test Article", "This is a test content.", 0, [])).outcome ==
      Ok(Article(0, "Test Article", "This is a test content.", 1, []))
    ensures FailsWith(CreateArticle(w, Article(0, "", "This is a test content.", 0, [])).outcome,
                      CodeInvalidParams)
    ensures FailsWith(CreateArticle(w.(ctx := map[]), Article(0, "Test Article", "x", 0, [])).outcome,
                      CodeUnauthorized)
  {
  }

  /**
   * A create never replaces a row: an id already taken is a duplicate key,
   * reported as InternalServerError.
   */
  lemma CreateNeverOverwrites(w: World, a: Article)
    ensures forall k :: k in w.store ==>
      k in CreateArticle(w, a).world.store && CreateArticle(w, a).world.store[k] == w.store[k]
    ensures UserIDKey in w.ctx && ValidateArticle(a.(authorId := w.ctx[UserIDKey])).None?
            && w.faults.storeWrite.None? && InsertId(a.id, w.nextId) in w.store ==>
      && FailsWith(CreateArticle(w, a).outcome, CodeInternalServerError)
      && Unwrap(CreateArticle(w, a).outcome.error.detail) == DuplicatedKey
      && CreateArticle(w, a).world == w
  {
  }

  /**
   * The tags of a created article are not stored: reading it back by its new
   * id gives the row without them.
   */
  lemma CreateThenReadDropsTags(w: World, a: Article)
    requires CreateArticle(w, a).outcome.Ok? && w.faults.storeRead.None?
    requires InsertId(a.id, w.nextId) !in w.cache
    ensures var id := InsertId(a.id, w.nextId);
      GetArticleByID(CreateArticle(w, a).world, id).outcome ==
      Ok(a.(id := id, authorId := w.ctx[UserIDKey], tags := []))
  {
  }

  // ----- GetArticleByID -----

  /** The store as the only source: what a read without a cache answers. */
  function StoreOnlyRead(w: World, id: Int64): Result<Article, Error>
  {
    if id in w.store then Ok(w.store[id]) else Err(Detail(New(CodeArticleNotFound, Some(ErrNotFound))))
  }

  /**
   * A cached article is returned as cached and the store is never queried,
   * even when the cache also reported an error.
   */
  lemma CacheHitSkipsStore(w: World, id: Int64)
    requires id in w.cache
    ensures GetArticleByID(w, id).outcome == Ok(w.cache[id])
    ensures forall i :: 0 <= i < |GetArticleByID(w, id).trace| ==>
      !GetArticleByID(w, id).trace[i].RepoGetByID?
  {
  }

  /**
   * On a miss, ErrNotFound from the store is ArticleNotFound and any other
   * store failure InternalServerError.
   */
  lemma ReadFailureCodes(w: World, id: Int64)
    requires id !in w.cache
    ensures w.faults.storeRead.None? && id !in w.store ==>
      GetArticleByID(w, id).outcome == Err(Detail(New(CodeArticleNotFound, Some(ErrNotFound))))
    ensures w.faults.storeRead.Some? && !IsNotFound(w.faults.storeRead.value) ==>
      FailsWith(GetArticleByID(w, id).outcome, CodeInternalServerError)
    ensures w.faults.storeRead.Some? && IsNotFound(w.faults.storeRead.value) ==>
      FailsWith(GetArticleByID(w, id).outcome, CodeArticleNotFound)
    ensures GetArticleByID(w, id).outcome.Err? ==> GetArticleByID(w, id).world == w
  {
  }

  /**
   * A store hit is written back for five minutes under the signed key and
   * returned whether or not that write succeeds; only a non-negative id's
   * entry is one a later read finds.
   */
  lemma StoreHitWrittenBack(w: World, id: Int64)
    requires StoreKeyed(w) && id !in w.cache && id in w.store && w.faults.storeRead.None?
    ensures var r := GetArticleByID(w, id);
      && r.outcome == Ok(w.store[id])
      && r.trace == [CacheGetArticle(CacheKeys.ArticleKey(id)), RepoGetByID(id),
                     CacheSetArticle(CacheKeys.SetKey(id), w.store[id], 300_000_000_000)]
      && (w.faults.cacheWrite.None? && id >= 0 ==> r.world.cache == w.cache[id := w.store[id]])
      && (w.faults.cacheWrite.Some? || id < 0 ==> r.world == w)
  {
  }

  /** A negative id is written back under "article:-N" but read under uint(id), so every read of it misses. */
  lemma NegativeIdAlwaysMisses(w: World, id: Int64)
    requires StoreKeyed(w) && id < 0 && id !in w.cache && id in w.store && w.faults.storeRead.None?
    ensures var r := GetArticleByID(w, id);
      && r.trace[2].key != r.trace[0].key
      && GetArticleByID(r.world, id).trace[1] == RepoGetByID(id)
  {
    CacheKeys.SetKeyIsArticleKeyIffNonNegative(id);
  }

  /**
   * A non-negative id's write-back is what the next read finds: it is answered
   * from the cache with one call.
   */
  lemma NonNegativeIdHitsAfterMiss(w: World, id: Int64)
    requires StoreKeyed(w) && id >= 0 && id !in w.cache && id in w.store
    requires w.faults.storeRead.None? && w.faults.cacheWrite.None?
    ensures var r := GetArticleByID(w, id);
      && r.trace[2].key == r.trace[0].key
      && GetArticleByID(r.world, id).trace == [CacheGetArticle(CacheKeys.ArticleKey(id))]
      && GetArticleByID(r.world, id).outcome == r.outcome
  {
    CacheKeys.SetKeyIsArticleKeyIffNonNegative(id);
  }

  /** Fail open: a failed cache write never changes what the reads return. */
  lemma ReadsFailOpen(w: World, id: Int64, writeFault: Option<Error>)
    ensures var w' := w.(faults := w.faults.(cacheWrite := writeFault));
      && GetArticleByID(w', id).outcome == GetArticleByID(w, id).outcome
      && GetAllArticles(w').outcome == GetAllArticles(w).outcome
  {
  }

  /**
   * With a coherent cache and a working store, the cache is invisible: the
   * read answers as the store alone would.
   */
  lemma CacheIsTransparent(w: World, id: Int64)
    requires EntryCoherent(w) && w.faults.storeRead.None?
    ensures GetArticleByID(w, id).outcome == StoreOnlyRead(w, id)
  {
  }

  // ----- GetAllArticles -----

  /** The collection read uses "articles:all" and has no NotFound branch: every store failure is internal. */
  lemma CollectionReadFailures(w: World)
    requires w.collection.None? && w.faults.storeRead.Some?
    ensures FailsWith(GetAllArticles(w).outcome, CodeInternalServerError)
    ensures GetAllArticles(w).trace == [CacheGetArticles("articles:all"), RepoGetAll]
  {
  }

  /** A store listing is written back under "articles:all" for five minutes and returned either way. */
  lemma CollectionWrittenBack(w: World)
    requires w.collection.None? && w.faults.storeRead.None?
    ensures var r := GetAllArticles(w);
      && r.outcome == Ok(Listing(w.store))
      && r.trace == [CacheGetArticles("articles:all"), RepoGetAll,
                     CacheSetArticles("articles:all", Listing(w.store), 300_000_000_000)]
      && r.world.collection == (if w.faults.cacheWrite.None? then Some(Listing(w.store)) else None)
  {
    var listing := Listing(w.store);
    assert StoreGetAll(w) == Ok(listing);
    assert CacheTTL == 300_000_000_000;
  }

  // ----- UpdateArticle / DeleteArticle -----

  /** Without an identity, update and delete fail Unauthorized before the store is read. */
  lemma WritesNeedIdentity(w: World, a: Article, id: Int64)
    requires UserIDKey !in w.ctx
    ensures FailsWith(UpdateArticle(w, a).outcome, CodeUnauthorized)
    ensures UpdateArticle(w, a).trace == [GetUserID]
    ensures FailsWith(DeleteArticle(w, id).outcome, CodeUnauthorized)
    ensures DeleteArticle(w, id).trace == [GetUserID]
  {
  }

  /** A missing article is ArticleNotFound, and nothing is written or evicted. */
  lemma WritesOnMissingArticle(w: World, a: Article, id: Int64)
    requires UserIDKey in w.ctx && w.faults.storeRead.None? && a.id !in w.store && id !in w.store
    ensures FailsWith(UpdateArticle(w, a).outcome, CodeArticleNotFound)
    ensures UpdateArticle(w, a).trace == [GetUserID, RepoGetByID(a.id)] && UpdateArticle(w, a).world == w
    ensures FailsWith(DeleteArticle(w, id).outcome, CodeArticleNotFound)
    ensures DeleteArticle(w, id).trace == [GetUserID, RepoGetByID(id)] && DeleteArticle(w, id).world == w
  {
  }

  /** Someone other than the author is refused: no Update, Delete or eviction call, nothing changes. */
  lemma NonOwnerRefused(w: World, a: Article, id: Int64)
    requires UserIDKey in w.ctx && w.faults.storeRead.None?
    requires a.id in w.store && w.store[a.id].authorId != w.ctx[UserIDKey]
    requires id in w.store && w.store[id].authorId != w.ctx[UserIDKey]
    ensures FailsWith(UpdateArticle(w, a).outcome, CodeUnauthorized)
    ensures Text(UpdateArticle(w, a).outcome.error) == "user not authorized to update this article"
    ensures UpdateArticle(w, a).trace == [GetUserID, RepoGetByID(a.id)] && UpdateArticle(w, a).world == w
    ensures FailsWith(DeleteArticle(w, id).outcome, CodeUnauthorized)
    ensures Text(DeleteArticle(w, id).outcome.error) == "user not authorized to delete this article"
    ensures DeleteArticle(w, id).trace == [GetUserID, RepoGetByID(id)] && DeleteArticle(w, id).world == w
  {
  }

  /** No call of a trace evicts the collection entry. */
  predicate NeverEvictsCollection(trace: seq<Call>)
  {
    forall i :: 0 <= i < |trace| && trace[i].CacheDeleteArticle? ==> trace[i].key != "articles:all"
  }

  /**
   * After the owner's write, only that article's entry is evicted, never
   * "articles:all"; a failed eviction is returned as the cache reported it,
   * not as a DetailError.
   */
  lemma OwnerUpdateEvictsSingleEntry(w: World, a: Article)
    requires UserIDKey in w.ctx && w.faults.storeRead.None? && w.faults.storeWrite.None?
    requires a.id in w.store && w.store[a.id].authorId == w.ctx[UserIDKey]
    ensures var r := UpdateArticle(w, a);
      && r.trace ==
         [GetUserID, RepoGetByID(a.id), RepoUpdate(a), CacheDeleteArticle(CacheKeys.ArticleKey(a.id))]
      && NeverEvictsCollection(r.trace)
      && r.world.store == w.store[a.id := a.(tags := [])]
      && r.world.collection == w.collection
      && (w.faults.cacheEvict.None? ==> r.outcome.Ok? && r.world.cache == w.cache - {a.id})
      && (w.faults.cacheEvict.Some? ==>
            r.outcome == Err(w.faults.cacheEvict.value) && r.world.cache == w.cache)
  {
    CacheKeys.ArticleKeyIsNotCollectionKey(a.id);
  }

  lemma OwnerDeleteEvictsSingleEntry(w: World, id: Int64)
    requires UserIDKey in w.ctx && w.faults.storeRead.None? && w.faults.storeWrite.None?
    requires id in w.store && w.store[id].authorId == w.ctx[UserIDKey]
    ensures var r := DeleteArticle(w, id);
      && r.trace == [GetUserID, RepoGetByID(id), RepoDelete(id), CacheDeleteArticle(CacheKeys.ArticleKey(id))]
      && NeverEvictsCollection(r.trace)
      && r.world.store == w.store - {id}
      && r.world.collection == w.collection
      && (w.faults.cacheEvict.None? ==> r.outcome.Ok? && r.world.cache == w.cache - {id})
      && (w.faults.cacheEvict.Some? ==>
            r.outcome == Err(w.faults.cacheEvict.value) && r.world.cache == w.cache)
  {
    CacheKeys.ArticleKeyIsNotCollectionKey(id);
  }

  /** A raw eviction error reaches the client as the generic 500, not as a business error of its own. */
  lemma EvictionErrorIsGeneric500(w: World, a: Article, text: string)
    requires UserIDKey in w.ctx && w.faults.storeRead.None? && w.faults.storeWrite.None?
    requires a.id in w.store && w.store[a.id].authorId == w.ctx[UserIDKey]
    requires w.faults.cacheEvict == Some(Plain(text))
    ensures ErrorMiddleware.HandleErrors([UpdateArticle(w, a).outcome.error]).value.response ==
      ErrorMiddleware.Response(500, BusinessError(10001, "Internal Server Error"))
  {
  }

  // ----- The auto-increment counter -----

  /**
   * A create keeps every row below the counter: the new row's id is below
   * the counter it leaves behind, whether the id was generated or given.
   */
  lemma CreateKeepsCounterAhead(w: World, a: Article)
    requires CounterAhead(w)
    ensures CounterAhead(CreateArticle(w, a).world)
  {
    var r := CreateArticle(w, a);
    if r.outcome.Ok? {
      var id := InsertId(a.id, w.nextId);
      forall k | k in r.world.store
        ensures k < r.world.nextId || k == MaxInt64
      {
        if k != id {
          assert k in w.store;
        }
      }
    }
  }

  /** Reads add no row and leave the counter alone. */
  lemma ReadsKeepCounterAhead(w: World, id: Int64)
    requires CounterAhead(w)
    ensures CounterAhead(GetArticleByID(w, id).world) && CounterAhead(GetAllArticles(w).world)
  {
  }

  /** An update rewrites an existing row only, so the ids and the counter stay as they were. */
  lemma UpdateKeepsCounterAhead(w: World, a: Article)
    requires CounterAhead(w)
    ensures CounterAhead(UpdateArticle(w, a).world)
  {
    var u := UpdateArticle(w, a).world;
    if u.store != w.store {
      assert u.store.Keys == w.store.Keys;
    }
  }

  /** The same for the corrected update that pins the author. */
  lemma UpdateAsOwnerKeepsCounterAhead(w: World, a: Article)
    requires CounterAhead(w)
    ensures CounterAhead(UpdateArticleAsOwner(w, a).world)
  {
    var u := UpdateArticleAsOwner(w, a).world;
    if u.store != w.store {
      assert u.store.Keys == w.store.Keys;
    }
  }

  /** A delete only removes a row; the counter does not move back. */
  lemma DeleteKeepsCounterAhead(w: World, id: Int64)
    requires CounterAhead(w)
    ensures CounterAhead(DeleteArticle(w, id).world)
  {
  }

  /**
   * While the counter is ahead and not exhausted, a create that leaves the
   * id to the store never meets a duplicate key: it fails only for want of
   * an identity, on validation, or on a store failure.
   */
  lemma GeneratedIdNeverClashes(w: World, a: Article)
    requires CounterAhead(w) && w.nextId < MaxInt64 && a.id == 0
    ensures InsertId(a.id, w.nextId) !in w.store
    ensures CreateArticle(w, a).outcome.Ok? <==>
      && UserIDKey in w.ctx
      && ValidateArticle(a.(authorId := w.ctx[UserIDKey])).None?
      && w.faults.storeWrite.None?
  {
  }

  /**
   * An explicit id moves the counter past it, as MySQL's AUTO_INCREMENT
   * does: after row 1 is created by id, the next generated id is 2 and the
   * insert succeeds.
   */
  lemma ExplicitIdMovesCounter(w: World)
    requires w.ctx == map[UserIDKey := 7] && w.faults.storeWrite.None? && w.store == map[] && w.nextId == 1
    ensures var first := CreateArticle(w, Article(1, "First", "x", 0, []));
      var second := CreateArticle(first.world, Article(0, "Second", "y", 0, []));
      && first.outcome.Ok? && first.world.nextId == 2
      && second.outcome.Ok? && second.world.store.Keys == {1, 2}
      && second.world.store[2].title == "Second"
  {
    var first := CreateArticle(w, Article(1, "First", "x", 0, []));
    assert first.world.store.Keys == {1};
  }

  // ----- Cache coherence -----

  /** Reads keep the per-article cache a copy of the store. */
  lemma ReadsPreserveCoherence(w: World, id: Int64)
    requires StoreKeyed(w) && EntryCoherent(w)
    ensures EntryCoherent(GetArticleByID(w, id).world) && StoreKeyed(GetArticleByID(w, id).world)
    ensures EntryCoherent(GetAllArticles(w).world) && StoreKeyed(GetAllArticles(w).world)
  {
  }

  /** Creating a row keeps the per-article cache coherent: the new id had no row, so it has no entry. */
  lemma CreatePreservesCoherence(w: World, a: Article)
    requires StoreKeyed(w) && EntryCoherent(w)
    ensures EntryCoherent(CreateArticle(w, a).world) && StoreKeyed(CreateArticle(w, a).world)
  {
  }

  /**
   * Update keeps the cache coherent unless the eviction failed, and then the
   * caller receives that failure.
   */
  lemma UpdatePreservesCoherenceUnlessEvictionFails(w: World, a: Article)
    requires StoreKeyed(w) && EntryCoherent(w)
    ensures StoreKeyed(UpdateArticle(w, a).world)
    ensures EntryCoherent(UpdateArticle(w, a).world) ||
      (w.faults.cacheEvict.Some? && UpdateArticle(w, a).outcome == Err(w.faults.cacheEvict.value))
  {
  }

  /**
   * Delete keeps the cache coherent unless the eviction failed, and then the
   * caller receives that failure.
   */
  lemma DeletePreservesCoherenceUnlessEvictionFails(w: World, id: Int64)
    requires StoreKeyed(w) && EntryCoherent(w)
    ensures StoreKeyed(DeleteArticle(w, id).world)
    ensures EntryCoherent(DeleteArticle(w, id).world) ||
      (w.faults.cacheEvict.Some? && DeleteArticle(w, id).outcome == Err(w.faults.cacheEvict.value))
  {
  }

  /**
   * The collection entry is never evicted, so after an owner's update a
   * cached "articles:all" keeps serving the article as it was.
   */
  lemma CollectionStaleAfterUpdate()
    ensures
      var old_ := Article(1, "Old Title", "Old Content", 100, []);
      var new_ := Article(1, "New Title", "New Content", 100, []);
      var w := World(map[1 := old_], 2, map[], Some([old_]), map[UserIDKey := 100],
                     Faults(None, None, None, None));
      var r := UpdateArticle(w, new_);
      && r.outcome.Ok?
      && r.world.store[1] == new_
      && GetAllArticles(r.world).outcome == Ok([old_])
  {
  }

  // ----- Finding: UpdateArticle does not pin the author -----

  /**
   * As written, the stored AuthorID is whatever the caller's article holds.
   * The HTTP handler builds that article without an AuthorID, so an owner's
   * update stores author 0, and the owner's next update is refused.
   */
  lemma UpdateArticleClearsAuthor()
    ensures
      var existing := Article(1, "Old Title", "Old Content", 100, []);
      var fromHandler := Article(1, "New Title", "New Content", 0, []);
      var w := World(map[1 := existing], 2, map[], None, map[UserIDKey := 100],
                     Faults(None, None, None, None));
      var r := UpdateArticle(w, fromHandler);
      && r.outcome.Ok?
      && r.world.store[1].authorId == 0
      && FailsWith(UpdateArticle(r.world, fromHandler).outcome, CodeUnauthorized)
  {
  }

  /** The corrected update keeps the author, so the owner can update again. */
  lemma UpdateAsOwnerKeepsOwnership(w: World, a: Article)
    requires UserIDKey in w.ctx && w.faults.storeRead.None?
    requires UpdateArticleAsOwner(w, a).world.store != w.store
    ensures OwnerGate(UpdateArticleAsOwner(w, a).world, a.id, UpdateDenied).Pass?
  {
  }

  /** The correction changes nothing for a caller that already names the owner as author. */
  lemma UpdateAsOwnerAgreesWhenAuthorIsCaller(w: World, a: Article)
    requires UserIDKey in w.ctx && a.authorId == w.ctx[UserIDKey]
    ensures UpdateArticleAsOwner(w, a) == UpdateArticle(w, a)
  {
  }

  // ----- Finding: CreateArticle reports the caller's id -----

  /**
   * As written, the repository inserts a copy of the article, so the
   * article the use-case returns keeps the id the caller gave it. The HTTP
   * handler gives none, and returns that article: the client is told id 0,
   * which names no row, while the row sits under the id the store assigned.
   */
  lemma CreateReportsCallerId()
    ensures
      var fromHandler := Article(0, "Test Article", "This is a test article.", 0, [Tag(0, "go")]);
      var w := World(map[], 1, map[], None, map[UserIDKey := 100], Faults(None, None, None, None));
      var r := CreateArticle(w, fromHandler);
      && r.outcome.Ok?
      && r.outcome.value.id == 0
      && 0 !in r.world.store
      && r.world.store[1] == Article(1, "Test Article", "This is a test article.", 100, [])
  {
  }

  /**
   * The corrected create differs from the code only in the id it reports; the
   * store and the calls are the same.
   */
  lemma CreateWithIdAgrees(w: World, a: Article)
    ensures CreateArticleWithId(w, a).world == CreateArticle(w, a).world
    ensures CreateArticleWithId(w, a).trace == CreateArticle(w, a).trace
    ensures CreateArticleWithId(w, a).outcome.Ok? <==> CreateArticle(w, a).outcome.Ok?
    ensures CreateArticle(w, a).outcome.Ok? ==>
      CreateArticleWithId(w, a).outcome.value ==
      CreateArticle(w, a).outcome.value.(id := InsertId(a.id, w.nextId))
  {
  }

  // ----- From the auth middleware to the use-case -----

  /** The user id the validator returns for the bearer token becomes the author of the created article. */
  lemma AuthenticatedAuthorIsTokenUser(w: World, token: string, a: Article,
                                       validate: string -> Result<Int64, Error>)
    requires ' ' !in token && validate(token).Ok?
    requires w.faults.storeWrite.None? && a.title != "" && a.content != "" && validate(token).value != 0
    requires InsertId(a.id, w.nextId) !in w.store
    ensures var auth := AuthMiddleware.Authenticate(AuthMiddleware.BearerPrefix + token, w.ctx, validate);
      && auth.outcome.Next?
      && CreateArticle(w.(ctx := auth.outcome.ctx), a).outcome == Ok(a.(authorId := validate(token).value))
  {
    AuthMiddleware.ValidatorOutcome(token, w.ctx, validate);
  }
}
