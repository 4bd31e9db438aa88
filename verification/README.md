# clean-architecture-blog: a Dafny model of the core

This project models the core of the Go blog backend clean-architecture-blog:
- the domain entities (Article, User, Tag, Comment) and their validation rules, including the anchored e-mail pattern of `User.Validate`;
- the `errorx` error taxonomy: the code table, `New`, `WithMessage`, and the `Error`/`Unwrap` chain that `errors.Is` and `errors.As` walk;
- the article use-case: create, cache-aside reads, updates and deletes guarded by ownership, and eviction of the article's cache entry;
- the user use-case: registration and login;
- the error middleware and the auth middleware;
- the GORM model conversions.

Every operation is a pure function. It takes a *world* (the rows of the store, the cache entries, the request context, and the failures each port is to report) and returns three things:
- the outcome;
- the trace of port calls it made;
- the world after those calls.

The users table compares e-mails and usernames without regard to letter case, as MySQL's default utf8mb4 collation does (the connection is opened with `charset=utf8mb4`, `db.go:23`). User rows are therefore keyed by the case-folded e-mail.

The bcrypt hash and compare, and JWT issuance and validation, are function-typed parameters. The model fixes only how their results become the use-case's result.

One disagreement is recorded without being resolved:
- `UserUsecase.Register` and `Login` look the user up by e-mail (`FindByEmail`, `user_usecase.go:41` and `:69`). The model follows that.
- The use-case unit test expects a lookup by username (`GetByUsername`, `user_usecase_test.go:46`).
- `UserProperties.RegisterLooksUpByEmail` shows what this means for the model: a second account with a taken username but a new e-mail passes the lookup and is not refused as an existing user. The unique username index of the users table then refuses the insert, and the client sees an internal error (10001) instead.

Modules, one per file:

| file | module | models |
|---|---|---|
| wrappers.dfy | Wrappers | `Option`, `Result` |
| errorx.dfy | Errorx | codes, `DetailError`, error chain |
| email.dfy | Email | the e-mail regular expression, as a language and as a decidable check |
| domain.dfy | Domain | entities and `Validate` |
| persistence.dfy | Persistence | GORM models and conversions |
| cache_keys.dfy | CacheKeys | the read key `"article:%d"` of `uint(id)`, the write key of the signed id, and `"articles:all"` |
| go_strings.dfy | GoStrings | `strings.Split` on one character |
| auth.dfy | Auth | the context key and `GetUserIDFromContext` |
| auth_middleware.dfy | AuthMiddleware | bearer header check |
| error_middleware.dfy | ErrorMiddleware | first-error response and log level |
| article_ports.dfy | ArticlePorts | the article world: store, cache, context, faults |
| article_usecase.dfy | ArticleUsecase | the five article operations |
| article_properties.dfy | ArticleProperties | properties of the article use-case |
| user_usecase.dfy | UserUsecase | `Register`, `Login` |
| user_properties.dfy | UserProperties | properties of the user use-case |

## Model

| member | source | states |
|---|---|---|
| Errorx.AsDetail | internal/interfaces/http/handler/middleware/error_middleware.go:25-27 | `errors.As` finds a DetailError exactly when the error is one, and returns that DetailError |
| Errorx.New | internal/errorx/error.go:41-63 | a known code yields its table row; an unknown code falls back to the 10001/500/Error row; the cause is kept, or is the row's message when none is given, and is the error's text |
| Errorx.WithMessage | internal/errorx/error.go:66-69 | only the business message changes: code, status, level, cause and logged text stay |
| Errorx.CodesAreSelfKeyed | internal/errorx/codes.go:33-41 | every table row's code equals its key |
| Errorx.CodesPartitionedByRange | internal/errorx/codes.go:10-25 | the table holds exactly the nine declared codes, and a code is in the table iff it lies in one of the three ranges |
| Errorx.CodesStatusesAndLevels | internal/errorx/codes.go:33-41 | statuses come from {200,400,401,404,500}; Error level iff 10001, Info iff 0, Warn for all the rest |
| Errorx.CodesConcreteRows | internal/errorx/codes.go:34-41 | the 30001, 10001, 20001 and 20003 rows as the handlers rely on them |
| Errorx.NewErrorText | internal/errorx/error.go:24-26 | a DetailError's text is its cause's text, or the table message when New got no cause |
| Errorx.WithMessageKeepsCause | internal/errorx/error.go:66-69 | overriding the message does not change the logged text fixed by New |
| Email.IsValidEmailMatchesPattern | domain/user.go:17 | the first-'@'/last-'.' check accepts exactly the strings the anchored pattern matches |
| Email.SplitIsAtFirstAtAndLastDot | domain/user.go:17 | a matching split is unique: its '@' is the first '@' and its '.' the last '.' |
| Email.AcceptedEmailShape | domain/user.go:17 | an accepted address has exactly one '@' and ends in '.' plus two to four lower-case letters |
| Email.UpperCaseRejected | domain/user.go:17 | the pattern is case-sensitive: any upper-case letter rejects |
| Email.ValidEmailExample | domain/user_test.go:17-21 | "test@example.com" is accepted |
| Email.NoAtRejected | domain/user_test.go:33-37 | "invalid-email" is rejected |
| Email.UpperCaseExampleRejected | domain/user.go:17 | "Test@example.com" is rejected |
| Email.LongSuffixRejected | domain/user.go:17 | a five-letter suffix is rejected |
| Domain.ValidateArticle | domain/article.go:18-28 | valid iff title, content and non-zero author are all present; any failure is one of the three messages; a missing title is always reported as such |
| Domain.ValidateUser | domain/user.go:20-28 | valid iff the username is non-empty and the e-mail is in the pattern's language; failures are the two messages, username first |
| Domain.ArticleFirstFailureWins | domain/article.go:19-27 | with several fields missing, the first check in title, content, author order names the error |
| Domain.NegativeAuthorAccepted | domain/article.go:25-27 | only author 0 is rejected; negative author ids pass |
| Domain.ArticleValidityIgnoresIdAndTags | domain/article.go:18-28 | ID and Tags never affect validation |
| Domain.UsernameCheckedBeforeEmail | domain/user.go:21-26 | with a username present, the result is decided by the e-mail check alone |
| Domain.UserValidityIgnoresOtherFields | domain/user.go:20-28 | ID, PasswordHash and Profile never affect validation |
| Domain.ArticleValidationExamples | domain/article_test.go:15-50 | the four cases of the article validation test, with their messages |
| Domain.UserValidationExamples | domain/user_test.go:15-38 | the three cases of the user validation test, with their messages |
| Persistence.ArticleRoundTrip | internal/infrastructure/persistence/gorm/gorm_article_model.go:20-37 | domain to model and back loses exactly the tags, and is the identity iff there are none |
| Persistence.ArticleModelRoundTrip | internal/infrastructure/persistence/gorm/gorm_article_model.go:10-37 | model to domain and back loses exactly the two timestamps |
| Persistence.UserRoundTrip | internal/infrastructure/persistence/gorm/gorm_user_model.go:22-49 | domain to model and back is lossless; the password hash is copied, never rehashed |
| Persistence.UserModelRoundTrip | internal/infrastructure/persistence/gorm/gorm_user_model.go:10-49 | model to domain and back loses exactly the timestamps; the hash is carried through |
| Persistence.TagRoundTrip | internal/infrastructure/persistence/gorm/gorm_tag_model.go:12-25 | the two tag conversions are mutual inverses |
| Persistence.ArticleFieldsCopied | internal/infrastructure/persistence/gorm/gorm_article_model.go:20-37 | FromDomain copies ID, Title, Content and AuthorID each to the column of the same name, and ToDomain copies them back and gives no tags |
| Persistence.UserFieldsCopied | internal/infrastructure/persistence/gorm/gorm_user_model.go:22-49 | each of ID, Username, PasswordHash and Email goes to the same-named column, and Nickname and Avatar of the profile to their own columns, in both directions |
| Persistence.TagFieldsCopied | internal/infrastructure/persistence/gorm/gorm_tag_model.go:12-25 | ID and Name are copied to the same-named field in both directions |
| Persistence.CommentFieldsCopied | internal/infrastructure/persistence/gorm/gorm_comment_model.go:19-38 | each of the five fields is copied to the same-named field in both directions, so ArticleID and UserID are never swapped |
| Persistence.NextCounter | internal/infrastructure/persistence/gorm/db.go:23-26 | after an insert the MySQL auto-increment counter is never lower than before, and is past the id the row took unless it stopped at the largest int64 |
| Persistence.FoldIdempotent | internal/infrastructure/persistence/gorm/db.go:23 | folding a folded e-mail changes nothing, so the folded form names its own equivalence class |
| Persistence.FoldExamples | internal/infrastructure/persistence/gorm/db.go:23 | "Bob@x.io" and "bob@x.io" are the same key under the case-insensitive collation; "alice" and "alicia" are not |
| Persistence.CommentRoundTrip | internal/infrastructure/persistence/gorm/gorm_comment_model.go:19-38 | the two comment conversions are mutual inverses, CreatedAt included |
| CacheKeys.ToUint | internal/application/usecase/article_usecase.go:71 | `uint(id)` keeps non-negative ids and adds 2^64 to negative ones |
| CacheKeys.ParseDecimalOfDecimal | internal/infrastructure/cache/article_cache_repository.go:23 | reading the `%d` rendering back gives the number |
| CacheKeys.ArticleKeyInjective | internal/infrastructure/cache/article_cache_repository.go:23 | distinct int64 ids have distinct "article:%d" keys, negative ids included |
| CacheKeys.ArticleKeyIsNotCollectionKey | internal/application/usecase/article_usecase.go:103 | no article key equals "articles:all" |
| CacheKeys.ArticleKeyExamples | internal/infrastructure/cache/article_cache_repository.go:22-23 | ids 1 and 42 are read under "article:1" and "article:42"; id -5 is read under the rendering of 2^64 - 5 |
| CacheKeys.SetKeyIsArticleKeyIffNonNegative | internal/infrastructure/cache/article_cache_repository.go:39-41 | the key SetArticle writes (signed id) equals the key GetArticle reads (uint(id)) iff the id is non-negative |
| CacheKeys.NegativeSetKeyIsNeverRead | internal/infrastructure/cache/article_cache_repository.go:40 | a negative id's write key "article:-N" is no id's read key and not "articles:all" |
| CacheKeys.SetKeyExamples | internal/infrastructure/cache/article_cache_repository.go:40 | ids 42 and -5 are written under "article:42" and "article:-5" |
| GoStrings.Split | internal/interfaces/http/handler/middleware/auth_middleware.go:24 | one more part than separators, and no part contains the separator |
| GoStrings.JoinSplit | internal/interfaces/http/handler/middleware/auth_middleware.go:24 | joining the parts with the separator gives back the header |
| Auth.GetUserIDFromContext | internal/infrastructure/auth/jwt.go:59-65 | succeeds iff the identity key is present, with its value; otherwise the fixed "invalid user ID in context" error |
| Auth.WithUserIDReadBack | internal/interfaces/http/handler/middleware/auth_middleware.go:39-40 | the id the middleware attaches is the id the use-case reads back |
| AuthMiddleware.Authenticate | internal/interfaces/http/handler/middleware/auth_middleware.go:16-42 | an empty header aborts before validation; the validator is called iff the header is "Bearer " plus a space-free token, and with that token; any other non-empty header is "invalid token format"; a rejected token is "invalid token"; the chain continues iff the validator accepts, with its user id in the context; every abort is 401 |
| AuthMiddleware.BearerFormat | internal/interfaces/http/handler/middleware/auth_middleware.go:24-25 | splitting on " " gives two parts with "Bearer" first iff the header is "Bearer " plus a space-free token, and the second part is that token |
| AuthMiddleware.EmptyHeaderAborts | internal/interfaces/http/handler/middleware/auth_middleware.go:17-22 | a missing header gives 401 "authorization header is required" and no validation |
| AuthMiddleware.LowerCaseSchemeRejected | internal/interfaces/http/handler/middleware/auth_middleware.go:24-29 | a lower-case "bearer" scheme gives 401 "invalid token format" without validation |
| AuthMiddleware.DoubleSpaceRejected | internal/interfaces/http/handler/middleware/auth_middleware.go:24-29 | "Bearer  x" (two spaces) gives 401 "invalid token format" |
| AuthMiddleware.BareSchemeRejected | internal/interfaces/http/handler/middleware/auth_middleware.go:24-29 | "Bearer" without a token gives 401 "invalid token format" |
| AuthMiddleware.EmptyTokenValidated | internal/interfaces/http/handler/middleware/auth_middleware.go:24-31 | "Bearer " hands the empty token to the validator |
| AuthMiddleware.ValidatorOutcome | internal/interfaces/http/handler/middleware/auth_middleware.go:31-41 | a rejected token gives 401 "invalid token"; an accepted one attaches its user id |
| ErrorMiddleware.HandleErrors | internal/interfaces/http/handler/middleware/error_middleware.go:14-58 | nothing iff no error; otherwise the first error decides: a DetailError answers with its own status and business error and logs Warn as Warn and every other level as Error; any other error answers 500/10001; the log text is the error's text |
| ErrorMiddleware.OnlyFirstErrorCounts | internal/interfaces/http/handler/middleware/error_middleware.go:22-23 | errors after the first never change the result |
| ErrorMiddleware.CauseNeverInResponse | internal/interfaces/http/handler/middleware/error_middleware.go:44-45 | the response does not depend on the underlying cause |
| ErrorMiddleware.InfoLoggedAsError | internal/interfaces/http/handler/middleware/error_middleware.go:35-42 | an Info-level DetailError is logged at Error |
| ErrorMiddleware.NewErrorResponse | internal/interfaces/http/handler/middleware/error_middleware.go:45 | an error built by New answers with the table's status, code and message |
| ErrorMiddleware.ResponseExamples | internal/interfaces/http/handler/middleware/error_middleware.go:27-57 | 30001 gives 404, 20001 gives 400, 20003 gives 401, a plain error gives 500/10001 |
| ArticlePorts.Persisted | internal/infrastructure/persistence/gorm/gorm_article_model.go:20-37 | an article written through FromDomain and read back through ToDomain is the article without its tags |
| ArticlePorts.StoreGetByID | internal/infrastructure/persistence/gorm/gorm_article_repository.go:28-37 | with no fault, succeeds iff the row exists, with that row, which carries no tags; a missing row is ErrNotFound |
| ArticlePorts.StoreCreate | internal/infrastructure/persistence/gorm/gorm_article_repository.go:23-26 | the insert succeeds iff the port works and the row's id (its own, or the counter's when zero) is free; it adds exactly that row, without tags, and keeps every other row; the counter moves as NextCounter says; a taken id is a duplicate-key error |
| ArticlePorts.Min | internal/infrastructure/persistence/gorm/gorm_article_repository.go:39-49 | the least id of a non-empty set, which belongs to the set |
| ArticlePorts.SortedKeys | internal/infrastructure/persistence/gorm/gorm_article_repository.go:39-49 | exactly the ids of the set, each once |
| ArticlePorts.SortedKeysAscending | internal/infrastructure/persistence/gorm/gorm_article_repository.go:39-49 | the listing order is strictly ascending by id |
| ArticlePorts.Listing | internal/infrastructure/persistence/gorm/gorm_article_repository.go:39-49 | one entry per row; every entry is a stored row, so carries no tags, and every stored row appears |
| ArticlePorts.StoreGetAll | internal/infrastructure/persistence/gorm/gorm_article_repository.go:39-49 | succeeds iff there is no read fault, with the listing |
| ArticleUsecase.StoreReadCode | internal/application/usecase/article_usecase.go:84-89 | ErrNotFound anywhere on the chain maps to 30001, everything else to 10001 |
| ArticleUsecase.CreateArticle | internal/application/usecase/article_usecase.go:42-66 | succeeds iff there is an identity, the article with that identity as author validates, the store works and the insert id is free; the result is the caller's article with the author set and its own id; the new row is that article under the insert id, without tags, and no other row changes; no identity gives 10003 and invalid input gives 10002, neither touching the store |
| ArticleUsecase.GetArticleByID | internal/application/usecase/article_usecase.go:69-99 | a cached article is returned as is with one call; a miss reads the store and writes the row back under the signed key "article:%d" of its id; the cache gains an entry only for a non-negative id; failures are 30001 or 10001; the store and collection are never changed |
| ArticleUsecase.GetAllArticles | internal/application/usecase/article_usecase.go:102-128 | a cached collection is returned with one call; a miss returns the store listing; any failure is 10001 |
| ArticleUsecase.OwnerGate | internal/application/usecase/article_usecase.go:133-148 | passes iff there is an identity, the row exists, and its author is that identity; otherwise 10003, 30001 or 10001, with the calls made so far |
| ArticleUsecase.Evict | internal/application/usecase/article_usecase.go:155-156 | removes exactly the article's cache entry, or returns the cache's own error unwrapped |
| ArticleUsecase.UpdateArticle | internal/application/usecase/article_usecase.go:131-157 | success needs the owner gate and a working store; the store changes only for the owner, to the caller's article as given (AuthorID included) without its tags; the collection entry is untouched |
| ArticleUsecase.DeleteArticle | internal/application/usecase/article_usecase.go:160-185 | success needs the owner gate and a working store; the store changes only for the owner, by removing that row; the collection entry is untouched |
| ArticleUsecase.UpdateArticleAsOwner | internal/application/usecase/article_usecase.go:131-157 | corrected update: whenever the store changes, the row keeps its author |
| ArticleUsecase.CreateArticleWithId | internal/infrastructure/persistence/gorm/gorm_article_repository.go:23-26 | corrected create: the result carries the id the store assigned, which names the stored row, and keeps the caller's tags |
| ArticleProperties.CreateWithoutIdentity | internal/application/usecase/article_usecase.go:44-48 | without an identity every article gives the same 10003 outcome, with one call and no change |
| ArticleProperties.CreateIgnoresCallerAuthor | internal/application/usecase/article_usecase.go:49 | the caller's AuthorID never matters |
| ArticleProperties.CreateValidationFailure | internal/application/usecase/article_usecase.go:52-55 | a missing title gives 10002 carrying "title is required", and repo.Create is not called |
| ArticleProperties.CreateKeepsCounterAhead | internal/infrastructure/persistence/gorm/gorm_article_repository.go:23-26 | after any create, successful or not, every row's id is still below the counter or is the largest int64 |
| ArticleProperties.ReadsKeepCounterAhead | internal/infrastructure/persistence/gorm/gorm_article_repository.go:28-49 | reads of one article or of the listing keep every row below the counter |
| ArticleProperties.UpdateKeepsCounterAhead | internal/infrastructure/persistence/gorm/gorm_article_repository.go:51-54 | an update keeps every row below the counter: it rewrites an existing row only |
| ArticleProperties.UpdateAsOwnerKeepsCounterAhead | internal/infrastructure/persistence/gorm/gorm_article_repository.go:51-54 | the same for the corrected update that pins the author |
| ArticleProperties.DeleteKeepsCounterAhead | internal/infrastructure/persistence/gorm/gorm_article_repository.go:56-58 | a delete keeps every row below the counter |
| ArticleProperties.GeneratedIdNeverClashes | internal/infrastructure/persistence/gorm/gorm_article_repository.go:23-26 | with the counter ahead of every row and not exhausted, the generated id is free, so a create with id 0 succeeds iff there is an identity, the article is valid and the store works |
| ArticleProperties.ExplicitIdMovesCounter | internal/infrastructure/persistence/gorm/gorm_article_repository.go:23-26 | after row 1 is created with an explicit id the counter is 2, and a following create with id 0 succeeds as row 2 |
| ArticleProperties.CreateExamples | internal/application/usecase/article_usecase_test.go:35-72 | success stores author 1; a missing title gives 10002; a missing identity gives 10003 |
| ArticleProperties.CreateNeverOverwrites | internal/infrastructure/persistence/gorm/gorm_article_repository.go:23-26 | a create never changes an existing row; a taken insert id gives 10001 wrapping the duplicate-key error, with nothing changed |
| ArticleProperties.CreateThenReadDropsTags | internal/infrastructure/persistence/gorm/gorm_article_repository.go:23-37 | reading a created article back by its new id returns it without its tags |
| ArticleProperties.CacheHitSkipsStore | internal/application/usecase/article_usecase.go:76-79 | a cached article is returned and the store is never queried |
| ArticleProperties.ReadFailureCodes | internal/application/usecase/article_usecase.go:83-89 | a missing row gives 30001 wrapping ErrNotFound; other store failures give 10001; failed reads change nothing |
| ArticleProperties.StoreHitWrittenBack | internal/application/usecase/article_usecase.go:91-98 | a store hit is written back under the signed "article:%d" for 300 s and returned whether or not that write succeeds; only a non-negative id gains a cache entry |
| ArticleProperties.NegativeIdAlwaysMisses | internal/application/usecase/article_usecase.go:71-92 | for a negative id the write-back key differs from the read key, so the next read misses again and queries the store |
| ArticleProperties.NonNegativeIdHitsAfterMiss | internal/application/usecase/article_usecase.go:71-92 | for a non-negative id the write-back key is the read key, so the next read is a one-call hit with the same article |
| ArticleProperties.ReadsFailOpen | internal/application/usecase/article_usecase.go:92-96 | a failed cache write never changes what either read returns |
| ArticleProperties.CacheIsTransparent | internal/application/usecase/article_usecase.go:69-99 | with a coherent cache and a working store, the read answers exactly as the store alone would |
| ArticleProperties.CollectionReadFailures | internal/application/usecase/article_usecase.go:116-119 | any store failure of the collection read is 10001 |
| ArticleProperties.CollectionWrittenBack | internal/application/usecase/article_usecase.go:121-127 | the listing is written back under "articles:all" for 300 s and returned either way |
| ArticleProperties.WritesNeedIdentity | internal/application/usecase/article_usecase.go:133-136 | without an identity, update and delete give 10003 before any store call |
| ArticleProperties.WritesOnMissingArticle | internal/application/usecase/article_usecase.go:139-145 | a missing article gives 30001 and nothing is written or evicted |
| ArticleProperties.NonOwnerRefused | internal/application/usecase/article_usecase.go:146-148 | a non-author gets 10003 with the operation's own denial text, and nothing changes |
| ArticleProperties.OwnerUpdateEvictsSingleEntry | internal/application/usecase/article_usecase.go:150-156 | the owner's update makes exactly four calls and evicts only "article:%d", never "articles:all"; a failed eviction comes back raw |
| ArticleProperties.OwnerDeleteEvictsSingleEntry | internal/application/usecase/article_usecase.go:179-184 | the same for delete, with the row removed |
| ArticleProperties.EvictionErrorIsGeneric500 | internal/application/usecase/article_usecase.go:156 | the raw eviction error reaches the client as 500/10001 |
| ArticleProperties.ReadsPreserveCoherence | internal/application/usecase/article_usecase.go:69-128 | reads keep every per-article cache entry a copy of its row |
| ArticleProperties.CreatePreservesCoherence | internal/application/usecase/article_usecase.go:42-66 | a create keeps the cache coherent, since the insert id had no row and so no entry |
| ArticleProperties.UpdatePreservesCoherenceUnlessEvictionFails | internal/application/usecase/article_usecase.go:150-156 | update keeps the cache coherent, or returns the eviction failure that left it stale |
| ArticleProperties.DeletePreservesCoherenceUnlessEvictionFails | internal/application/usecase/article_usecase.go:179-184 | delete keeps the cache coherent, or returns the eviction failure that left it stale |
| ArticleProperties.CollectionStaleAfterUpdate | internal/application/usecase/article_usecase.go:155-156 | after an owner's update, a cached "articles:all" still serves the old article |
| ArticleProperties.UpdateArticleClearsAuthor | internal/interfaces/http/handler/article_handler.go:100-104 | as written: the handler's article has author 0, the update stores it, and the owner's next update is refused |
| ArticleProperties.UpdateAsOwnerKeepsOwnership | internal/application/usecase/article_usecase.go:146-150 | corrected: after an update the owner still passes the ownership check |
| ArticleProperties.UpdateAsOwnerAgreesWhenAuthorIsCaller | internal/application/usecase/article_usecase.go:131-157 | the corrected update behaves exactly as the code does whenever the caller's article already names the acting identity as author |
| ArticleProperties.CreateReportsCallerId | internal/infrastructure/persistence/gorm/gorm_article_repository.go:23-26 | as written: the handler's article (id 0) is created under id 1, yet the use-case returns it with id 0, which names no row |
| ArticleProperties.CreateWithIdAgrees | internal/application/usecase/article_usecase.go:42-66 | the corrected create has the same calls and store as the code; its result differs only in carrying the insert id |
| ArticleProperties.AuthenticatedAuthorIsTokenUser | internal/interfaces/http/handler/middleware/auth_middleware.go:31-41 | the user id the validator returns for the bearer token becomes the created article's author |
| UserUsecase.FindUserByEmail | internal/infrastructure/persistence/gorm/gorm_user_repository.go:32-42 | with no fault, succeeds iff a row has that e-mail up to letter case, with that row; otherwise the failure is ErrNotFound |
| UserUsecase.CreateUserRow | internal/infrastructure/persistence/gorm/gorm_user_repository.go:64-67 | the insert succeeds iff the port works and no row has the new row's e-mail or username up to letter case, or its id (the counter's when zero); it adds exactly that row under the folded e-mail and moves the counter as NextCounter says; a clash is a duplicate-key error |
| UserUsecase.Register | internal/application/usecase/user_usecase.go:39-65 | succeeds iff the lookup says ErrNotFound, hashing works and the insert works; on success exactly three calls, and the row stored, under the folded e-mail, is the user with the hash in place of the plaintext and the id the store gives it; failures change nothing and are 20001 or 10001 |
| UserUsecase.Login | internal/application/usecase/user_usecase.go:68-92 | succeeds iff the row exists, the password matches and a token is issued, returning that token; failures are 20003 or 10001 |
| UserProperties.RegisterExistingUser | internal/application/usecase/user_usecase.go:41-43 | a taken e-mail, in any letter case, gives 20001 with its table message as text, after one call |
| UserProperties.RegisterLookupFailure | internal/application/usecase/user_usecase.go:44-48 | any other lookup failure gives 10001 wrapping it, after one call |
| UserProperties.RegisterHashOrCreateFailure | internal/application/usecase/user_usecase.go:50-61 | a hash failure gives 10001 before Create; a Create failure gives 10001, a duplicate-key clash included |
| UserProperties.RegisterUsernameTaken | internal/infrastructure/persistence/gorm/gorm_user_model.go:12 | a new e-mail with a username already taken up to letter case passes the lookup, is hashed, and the unique index refuses the insert: 10001 wrapping the duplicate-key error |
| UserProperties.RegisterStoresHash | internal/application/usecase/user_usecase.go:50-57 | the stored row differs from the input only in PasswordHash, which is the hash of the plaintext, and in ID, which is the counter's value when the input's is 0 |
| UserProperties.RegisterSkipsValidation | internal/application/usecase/user_usecase.go:39-65 | a user that fails Validate is still registered |
| UserProperties.RegisterLooksUpByEmail | internal/application/usecase/user_usecase_test.go:46 | the lookup is by e-mail, so a taken username with a new e-mail passes it and is not 20001 as the test expects; the unique username index then refuses the insert, giving 10001 |
| UserProperties.EmailIgnoresCase | internal/infrastructure/persistence/gorm/gorm_user_repository.go:34 | with "Bob@x.io" registered, "BOB@X.IO" finds Bob's row and registering "bob@x.io" gives 20001 |
| UserProperties.UsernameIgnoresCase | internal/infrastructure/persistence/gorm/gorm_user_model.go:12 | with "bob" registered, registering "BOB" with a new e-mail gives 10001 wrapping the duplicate-key error |
| UserProperties.RegisterKeepsCounterAhead | internal/infrastructure/persistence/gorm/gorm_user_repository.go:64-67 | a registration keeps every user row's id below the counter (or at the largest int64) |
| UserProperties.GeneratedUserIdNeverClashes | internal/infrastructure/persistence/gorm/gorm_user_repository.go:64-67 | with the counter ahead of every row and not exhausted, an insert with id 0 clashes iff its e-mail or username is taken up to letter case |
| UserProperties.LoginFailuresIndistinguishable | internal/application/usecase/user_usecase.go:69-82 | an unknown e-mail and a wrong password both give 20003, and the same response through the error middleware |
| UserProperties.LoginInternalFailures | internal/application/usecase/user_usecase.go:74-87 | other lookup failures and token failures give 10001; a token is requested only after the password matched |
| UserProperties.RegisterThenLogin | internal/application/usecase/user_usecase.go:39-92 | after a registration, logging in with the same e-mail and plaintext returns the token issued for the id the store gave the row, the counter's value for the handler's id 0 |

## Left out

- HTTP handlers, routing, JSON binding and the server wiring are not modelled. They are only consulted to fix what the use-cases receive.
- The GORM and Redis adapters are abstract store and cache maps. SQL, JSON encoding and expiry timing are not modelled. The TTL is the constant passed to the cache.
- Logging calls other than the error middleware's level and message are not modelled. The logger has no effect on results.
- bcrypt and JWT are function parameters. Their cryptography is not modelled.
- The audit service, comment and tag repositories, configuration and the log handler are not modelled: they are outside the core.
- ArticlePorts.Listing: GORM's `Find` without `ORDER BY` has no defined order. The listing assumes ascending id.
- ArticleUsecase.GetArticleByID: the cache read's error is only logged (`article_usecase.go:72-75`, `:106-108`), so the model has no cache read fault. Hit or miss is decided by whether an entry is present, as the Go code decides it by the returned value.
- ArticleUsecase.GetArticleByID: for a negative id the write-back lands under `"article:-N"`, a key no modelled operation reads or deletes. The trace records the write; the id-indexed cache keeps no entry for it, and its expiry is not modelled.
- ArticleUsecase.CreateArticle: the auto-increment counter `nextId` follows MySQL's rule: after an insert it is past the row's id, generated or given. It stops at the largest int64, where MySQL would report an error on the next insert. A failed insert leaves it alone; InnoDB may consume a value there, which only leaves a gap. `nextUserId` of the users table behaves the same.
- UserUsecase.FindUserByEmail: the e-mail comparison models ASCII letter case only. The collation's other equivalences (accents, letters outside ASCII) are not modelled.
- UserUsecase.CreateUserRow: the unique indexes on username and email compare under the same ASCII case folding; the collation's other equivalences are not modelled.
- ArticleUsecase.UpdateArticle: GORM's `Save` of a zero primary key inserts instead of updating. That needs a stored row with id 0, which the auto-increment never creates; the model updates such a row in place.
- Persistence.DuplicatedKey: stands for the MySQL driver's duplicate-key error (error 1062), whose text the model does not reproduce. GORM passes it on untranslated and the use-cases wrap every Create error alike, so the text is never inspected.
- ArticleUsecase.GetAllArticles: a nil slice and an empty slice are not distinguished. Go stores an empty store's listing as JSON `null`, which reads back as a miss; the model treats the cached empty listing as a hit. Both return an empty list; only the trace differs.
- Errorx.WithMessage: Go mutates the DetailError in place and returns the same pointer. The model returns a new value, so aliasing is not modelled.

## Findings

| source | as written | input that shows it | evidently intended | confidence | as-written member | corrected member |
|---|---|---|---|---|---|---|
| internal/application/usecase/article_usecase.go:150 | UpdateArticle checks that the caller owns the stored row, then saves the caller's article as given, AuthorID included; the handler (article_handler.go:100-104) never sets AuthorID | owner 100 updates article 1 through the handler: the row is saved with AuthorID 0, and owner 100's next update is refused with 10003 | keep the author: set AuthorID to the acting identity before the save, as CreateArticle does | medium; not executed | ArticleProperties.UpdateArticleClearsAuthor | ArticleProperties.UpdateAsOwnerKeepsOwnership |
| internal/infrastructure/persistence/gorm/gorm_article_repository.go:23-26 | Create inserts a fresh ArticleModel built by FromDomain and never copies the id the database assigns back into the caller's article; the handler returns that article (article_handler.go:52-53) | the handler's article with ID 0 is stored as row 1, but the created article returned to the client still has ID 0, where the end-to-end test (tests/e2e/article_test.go:64-65) expects a non-zero id | copy the assigned id back into the caller's article after the insert | medium; not executed | ArticleProperties.CreateReportsCallerId | ArticleUsecase.CreateArticleWithId |
