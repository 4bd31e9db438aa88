/**
 * The user use-case: registration (uniqueness lookup, password hashing,
 * Create) and login (lookup, password comparison, token issuance).
 * bcrypt's GenerateFromPassword and CompareHashAndPassword, and the auth
 * service's GenerateToken, are parameters: the model fixes only how their
 * outcomes are turned into the use-case's outcome.
 */
module UserUsecase {
  import opened Wrappers
  import opened Errorx
  import opened Domain
  import opened Persistence

  /**
   * users: the user rows, keyed by the e-mail as the unique email index and
   * FindByEmail's `WHERE email = ?` compare it: MySQL's default utf8mb4
   * collation ignores case, so the key is Fold(email);
   * nextUserId: the auto-increment counter of the id column;
   * lookupFault / createFault: the failures FindByEmail / Create report
   * (createFault stands for anything but a key clash, which the rows decide).
   */
  datatype UserWorld = UserWorld(users: map<string, User>, nextUserId: Int64,
                                 lookupFault: Option<Error>, createFault: Option<Error>)

  datatype UserCall =
    | FindByEmail(email: string)
    | HashPassword(plaintext: string)
    | CreateUser(user: User)
    | ComparePassword(hash: string, password: string)
    | GenerateToken(userId: Int64)

  datatype UserRun<T> = UserRun(outcome: Result<T, Error>, trace: seq<UserCall>, world: UserWorld)

  /**
   * UserRepository.FindByEmail: the row whose e-mail equals the given one
   * up to case; a missing row is the ErrNotFound sentinel.
   */
  function FindUserByEmail(w: UserWorld, email: string): (r: Result<User, Error>)
    ensures w.lookupFault.None? ==> (r.Ok? <==> Fold(email) in w.users)
    ensures r.Ok? ==> Fold(email) in w.users && r.value == w.users[Fold(email)]
    ensures r.Err? && w.lookupFault.None? ==> r.error == ErrNotFound
  {
    if w.lookupFault.Some? then Err(w.lookupFault.value)
    else if Fold(email) in w.users then Ok(w.users[Fold(email)])
    else Err(ErrNotFound)
  }

  /**
   * A row already holds the new row's e-mail or username (up to case), or
   * its id: the primary key or one of the unique indexes on username and
   * email refuses it.
   */
  predicate Clashes(users: map<string, User>, row: User)
  {
    || Fold(row.email) in users
    || exists e :: e in users && (users[e].id == row.id || Fold(users[e].username) == Fold(row.username))
  }

  /** The row UserRepository.Create inserts for u: FromDomainUser(u) with the id GORM gives it. */
  function InsertedRow(w: UserWorld, u: User): User
  {
    UserToDomain(UserFromDomain(u.(id := InsertId(u.id, w.nextUserId))))
  }

  /**
   * UserRepository.Create: the insert succeeds unless the port fails or the
   * row clashes; the counter then moves as MySQL's AUTO_INCREMENT does.
   */
  function CreateUserRow(w: UserWorld, u: User): (r: Result<UserWorld, Error>)
    ensures var row := u.(id := InsertId(u.id, w.nextUserId));
      && (r.Ok? <==> w.createFault.None? && !Clashes(w.users, row))
      && (r.Err? && w.createFault.None? ==> r.error == DuplicatedKey)
      && (r.Ok? ==>
            && Fold(u.email) !in w.users
            && r.value.users == w.users[Fold(u.email) := row]
            && r.value.nextUserId == NextCounter(u.id, w.nextUserId)
            && r.value.(users := w.users, nextUserId := w.nextUserId) == w)
  {
    UserRoundTrip(u.(id := InsertId(u.id, w.nextUserId)));
    if w.createFault.Some? then Err(w.createFault.value)
    else if Clashes(w.users, u.(id := InsertId(u.id, w.nextUserId))) then Err(DuplicatedKey)
    else Ok(w.(users := w.users[Fold(u.email) := InsertedRow(w, u)],
               nextUserId := NextCounter(u.id, w.nextUserId)))
  }

  /**
   * Every user row's id is below the counter, so a generated id is free;
   * only an exhausted counter, stopped at the largest int64, may have that row.
   */
  predicate UserCounterAhead(w: UserWorld)
  {
    forall e :: e in w.users ==> w.users[e].id < w.nextUserId || w.users[e].id == MaxInt64
  }

  function Internal<T>(cause: Error, trace: seq<UserCall>, w: UserWorld): (r: UserRun<T>)
    ensures r.outcome.Err? && r.outcome.error.Detail?
    ensures r.outcome.error.detail.business.code == CodeInternalServerError
    ensures Unwrap(r.outcome.error.detail) == cause
    ensures r.trace == trace && r.world == w
  {
    UserRun(Err(Detail(New(CodeInternalServerError, Some(cause)))), trace, w)
  }

  /** The row a registration of user stores when the password hashes to hashed. */
  function StoredUser(w: UserWorld, user: User, hashed: string): User
  {
    user.(passwordHash := hashed, id := InsertId(user.id, w.nextUserId))
  }

  /**
   * Register: the plaintext password arrives in PasswordHash and is replaced
   * by hash(plaintext) before Create. User.Validate is not called.
   */
  function Register(w: UserWorld, user: User, hash: string -> Result<string, Error>): (r: UserRun<()>)
    ensures 1 <= |r.trace| && r.trace[0] == FindByEmail(user.email)
    ensures r.outcome.Ok? <==>
      && FindUserByEmail(w, user.email).Err? && IsNotFound(FindUserByEmail(w, user.email).error)
      && hash(user.passwordHash).Ok?
      && w.createFault.None?
      && !Clashes(w.users, StoredUser(w, user, hash(user.passwordHash).value))
    ensures r.outcome.Ok? ==>
      && r.trace == [FindByEmail(user.email), HashPassword(user.passwordHash),
                     CreateUser(user.(passwordHash := hash(user.passwordHash).value))]
      && r.world.users == w.users[Fold(user.email) := StoredUser(w, user, hash(user.passwordHash).value)]
      && r.world.nextUserId == NextCounter(user.id, w.nextUserId)
    ensures r.outcome.Err? ==> r.world == w && r.outcome.error.Detail?
    ensures r.outcome.Err? ==>
      r.outcome.error.detail.business.code in {CodeUserAlreadyExists, CodeInternalServerError}
  {
    var trace := [FindByEmail(user.email)];
    match FindUserByEmail(w, user.email)
    case Ok(_) => UserRun(Err(Detail(New(CodeUserAlreadyExists, None))), trace, w)
    case Err(e) =>
      if !IsNotFound(e) then Internal(e, trace, w)
      else
        var trace' := trace + [HashPassword(user.passwordHash)];
        match hash(user.passwordHash)
        case Err(he) => Internal(he, trace', w)
        case Ok(hashed) =>
          var withHash := user.(passwordHash := hashed);
          var trace'' := trace' + [CreateUser(withHash)];
          match CreateUserRow(w, withHash)
          case Err(ce) => Internal(ce, trace'', w)
          case Ok(w') => UserRun(Ok(()), trace'', w')
  }

  /**
   * Login: `verify(hash, password)` is CompareHashAndPassword (None when they
   * match); `issue(id)` is GenerateToken.
   */
  function Login(w: UserWorld, email: string, password: string,
                 verify: (string, string) -> Option<Error>,
                 issue: Int64 -> Result<string, Error>): (r: UserRun<string>)
    ensures r.world == w
    ensures 1 <= |r.trace| && r.trace[0] == FindByEmail(email)
    ensures r.outcome.Ok? <==>
      && FindUserByEmail(w, email).Ok?
      && verify(FindUserByEmail(w, email).value.passwordHash, password).None?
      && issue(FindUserByEmail(w, email).value.id).Ok?
    ensures r.outcome.Ok? ==> r.outcome.value == issue(FindUserByEmail(w, email).value.id).value
    ensures r.outcome.Err? ==> r.outcome.error.Detail?
    ensures r.outcome.Err? ==>
      r.outcome.error.detail.business.code in {CodeInvalidCredentials, CodeInternalServerError}
  {
    var trace := [FindByEmail(email)];
    match FindUserByEmail(w, email)
    case Err(e) =>
      if IsNotFound(e) then UserRun(Err(Detail(New(CodeInvalidCredentials, Some(e)))), trace, w)
      else Internal(e, trace, w)
    case Ok(user) =>
      var trace' := trace + [ComparePassword(user.passwordHash, password)];
      match verify(user.passwordHash, password)
      case Some(mismatch) => UserRun(Err(Detail(New(CodeInvalidCredentials, Some(mismatch)))), trace', w)
      case None =>
        var trace'' := trace' + [GenerateToken(user.id)];
        match issue(user.id)
        case Err(te) => Internal(te, trace'', w)
        case Ok(token) => UserRun(Ok(token), trace'', w)
  }
}
