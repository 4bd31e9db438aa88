/**
 * Properties of the user use-case: what stops a registration, what is
 * stored, why two login failures look the same to a client, and what a
 * successful login returns.
 */
module UserProperties {
  import opened Wrappers
  import opened Errorx
  import opened Domain
  import opened UserUsecase
  import opened Persistence
  import ErrorMiddleware

  /**
   * An existing e-mail, in any case, is UserAlreadyExists with no cause of
   * its own; nothing is hashed or created.
   */
  lemma RegisterExistingUser(w: UserWorld, user: User, hash: string -> Result<string, Error>)
    requires w.lookupFault.None? && Fold(user.email) in w.users
    ensures var r := Register(w, user, hash);
      && r.outcome == Err(Detail(New(CodeUserAlreadyExists, None)))
      && Text(r.outcome.error) == "User already exists"
      && r.trace == [FindByEmail(user.email)]
      && r.world == w
  {
  }

  /**
   * A lookup failure other than ErrNotFound is InternalServerError carrying
   * that failure; Create is not called.
   */
  lemma RegisterLookupFailure(w: UserWorld, user: User, hash: string -> Result<string, Error>)
    requires w.lookupFault.Some? && !IsNotFound(w.lookupFault.value)
    ensures var r := Register(w, user, hash);
      && r.outcome == Err(Detail(New(CodeInternalServerError, w.lookupFault)))
      && r.trace == [FindByEmail(user.email)]
  {
  }

  /**
   * A hashing failure is InternalServerError before Create; a Create
   * failure, a key clash included, is InternalServerError too.
   */
  lemma RegisterHashOrCreateFailure(w: UserWorld, user: User, hash: string -> Result<string, Error>)
    requires w.lookupFault.None? && Fold(user.email) !in w.users
    ensures hash(user.passwordHash).Err? ==>
      && Register(w, user, hash).outcome ==
         Err(Detail(New(CodeInternalServerError, Some(hash(user.passwordHash).error))))
      && Register(w, user, hash).trace == [FindByEmail(user.email), HashPassword(user.passwordHash)]
    ensures hash(user.passwordHash).Ok? && w.createFault.Some? ==>
      Register(w, user, hash).outcome == Err(Detail(New(CodeInternalServerError, w.createFault)))
    ensures hash(user.passwordHash).Ok? && w.createFault.None?
            && Clashes(w.users, StoredUser(w, user, hash(user.passwordHash).value)) ==>
      Register(w, user, hash).outcome == Err(Detail(New(CodeInternalServerError, Some(DuplicatedKey))))
  {
  }

  /**
   * A row whose username equals the new user's up to case refuses the
   * insert, whatever the e-mails and ids; the trace shows the lookup, the
   * hashing and the attempted Create.
   */
  lemma RegisterUsernameTaken(w: UserWorld, user: User, hash: string -> Result<string, Error>, e: string)
    requires w.lookupFault.None? && w.createFault.None? && hash(user.passwordHash).Ok?
    requires Fold(user.email) !in w.users
    requires e in w.users && Fold(w.users[e].username) == Fold(user.username)
    ensures Register(w, user, hash).outcome == Err(Detail(New(CodeInternalServerError, Some(DuplicatedKey))))
    ensures Register(w, user, hash).trace ==
      [FindByEmail(user.email), HashPassword(user.passwordHash),
       CreateUser(user.(passwordHash := hash(user.passwordHash).value))]
  {
    assert Clashes(w.users, StoredUser(w, user, hash(user.passwordHash).value));
  }

  /**
   * The stored row carries the hash of the original plaintext, never the
   * plaintext itself (when the two differ), and the id the store gives it:
   * the counter's value for the handler's id 0.
   */
  lemma RegisterStoresHash(w: UserWorld, user: User, hash: string -> Result<string, Error>)
    requires Register(w, user, hash).outcome.Ok?
    ensures var stored := Register(w, user, hash).world.users[Fold(user.email)];
      && stored.passwordHash == hash(user.passwordHash).value
      && stored.(passwordHash := user.passwordHash, id := user.id) == user
      && (user.id == 0 ==> stored.id == w.nextUserId)
      && (user.id != 0 ==> stored.id == user.id)
  {
  }

  /** Register never validates: a user with no username and a malformed e-mail is stored. */
  lemma RegisterSkipsValidation(hash: string -> Result<string, Error>)
    requires hash("pw").Ok?
    ensures var user := User(0, "", "pw", "not-an-email", UserProfile("", ""));
      && ValidateUser(user).Some?
      && Register(UserWorld(map[], 1, None, None), user, hash).outcome.Ok?
  {
    var user := User(0, "", "pw", "not-an-email", UserProfile("", ""));
    assert ValidateUser(user) == Some(Plain(UsernameRequired));
  }

  /**
   * The lookup key is the e-mail: a second "alice" with a new e-mail passes
   * the lookup and is not UserAlreadyExists, whereas the use-case test
   * expects a lookup by username. The unique username index then refuses the
   * insert, so the client sees InternalServerError instead.
   */
  lemma RegisterLooksUpByEmail(hash: string -> Result<string, Error>)
    requires hash("password123").Ok?
    ensures
      var alice := User(1, "alice", "h", "alice@example.com", UserProfile("", ""));
      var again := User(0, "alice", "password123", "other@example.com", UserProfile("", ""));
      var r := Register(UserWorld(map["alice@example.com" := alice], 2, None, None), again, hash);
      && r.trace == [FindByEmail("other@example.com"), HashPassword("password123"),
                     CreateUser(again.(passwordHash := hash("password123").value))]
      && !FailsCode(r.outcome, CodeUserAlreadyExists)
      && r.outcome == Err(Detail(New(CodeInternalServerError, Some(DuplicatedKey))))
  {
    var alice := User(1, "alice", "h", "alice@example.com", UserProfile("", ""));
    var again := User(0, "alice", "password123", "other@example.com", UserProfile("", ""));
    var w := UserWorld(map["alice@example.com" := alice], 2, None, None);
    assert Fold("other@example.com") == "other@example.com";
    RegisterUsernameTaken(w, again, hash, "alice@example.com");
  }

  /** An unknown e-mail and a wrong password give the same code, status and body. */
  lemma LoginFailuresIndistinguishable(w: UserWorld, unknown: string, known: string, password: string,
                                       verify: (string, string) -> Option<Error>,
                                       issue: Int64 -> Result<string, Error>)
    requires w.lookupFault.None? && Fold(unknown) !in w.users && Fold(known) in w.users
    requires verify(w.users[Fold(known)].passwordHash, password).Some?
    ensures var a := Login(w, unknown, password, verify, issue).outcome;
      var b := Login(w, known, password, verify, issue).outcome;
      && FailsCode(a, CodeInvalidCredentials) && FailsCode(b, CodeInvalidCredentials)
      && ErrorMiddleware.HandleErrors([a.error]).value.response ==
         ErrorMiddleware.HandleErrors([b.error]).value.response
  {
  }

  predicate FailsCode<T>(o: Result<T, Error>, code: int)
  {
    o.Err? && o.error.Detail? && o.error.detail.business.code == code
  }

  /**
   * Other lookup failures and token failures are InternalServerError; no
   * token is requested before the password matched.
   */
  lemma LoginInternalFailures(w: UserWorld, email: string, password: string,
                              verify: (string, string) -> Option<Error>,
                              issue: Int64 -> Result<string, Error>)
    ensures w.lookupFault.Some? && !IsNotFound(w.lookupFault.value) ==>
      FailsCode(Login(w, email, password, verify, issue).outcome, CodeInternalServerError)
    ensures var key := Fold(email);
      w.lookupFault.None? && key in w.users && verify(w.users[key].passwordHash, password).None?
      && issue(w.users[key].id).Err? ==>
      FailsCode(Login(w, email, password, verify, issue).outcome, CodeInternalServerError)
    ensures var key := Fold(email);
      key in w.users && GenerateToken(w.users[key].id) in Login(w, email, password, verify, issue).trace ==>
      w.lookupFault.None? && verify(w.users[key].passwordHash, password).None?
  {
  }

  /**
   * Register then Login: with a hash the comparison accepts and a lookup
   * that does not fail, logging in with the registered e-mail and plaintext
   * returns the token issued for the id the store gave the row, which is
   * the counter's value when the handler passed id 0.
   */
  lemma RegisterThenLogin(w: UserWorld, user: User, hash: string -> Result<string, Error>,
                          verify: (string, string) -> Option<Error>,
                          issue: Int64 -> Result<string, Error>)
    requires w.lookupFault.None? && Register(w, user, hash).outcome.Ok?
    requires verify(hash(user.passwordHash).value, user.passwordHash).None?
    requires issue(InsertId(user.id, w.nextUserId)).Ok?
    ensures Login(Register(w, user, hash).world, user.email, user.passwordHash, verify, issue).outcome ==
      Ok(issue(InsertId(user.id, w.nextUserId)).value)
    ensures user.id == 0 ==>
      Login(Register(w, user, hash).world, user.email, user.passwordHash, verify, issue).outcome ==
      Ok(issue(w.nextUserId).value)
  {
  }

  // ----- E-mail case and the id counter -----

  /**
   * E-mails compare without regard to case: with "Bob@x.io" registered,
   * "BOB@X.IO" finds Bob's row and registering "bob@x.io" is
   * UserAlreadyExists.
   */
  lemma EmailIgnoresCase(hash: string -> Result<string, Error>)
    ensures
      var bob := User(1, "bob", "h", "Bob@x.io", UserProfile("", ""));
      var w := UserWorld(map[Fold("Bob@x.io") := bob], 2, None, None);
      && FindUserByEmail(w, "BOB@X.IO") == Ok(bob)
      && Register(w, User(0, "robert", "pw", "bob@x.io", UserProfile("", "")), hash).outcome ==
         Err(Detail(New(CodeUserAlreadyExists, None)))
  {
    FoldExamples();
    assert Fold("BOB@X.IO") == "bob@x.io";
  }

  /**
   * Usernames compare without regard to case too: with "bob" registered, a
   * new e-mail with the username "BOB" passes the lookup and the unique
   * username index refuses the insert.
   */
  lemma UsernameIgnoresCase(hash: string -> Result<string, Error>)
    requires hash("pw").Ok?
    ensures
      var bob := User(1, "bob", "h", "bob@x.io", UserProfile("", ""));
      var w := UserWorld(map["bob@x.io" := bob], 2, None, None);
      Register(w, User(0, "BOB", "pw", "new@x.io", UserProfile("", "")), hash).outcome ==
      Err(Detail(New(CodeInternalServerError, Some(DuplicatedKey))))
  {
    var bob := User(1, "bob", "h", "bob@x.io", UserProfile("", ""));
    var w := UserWorld(map["bob@x.io" := bob], 2, None, None);
    var other := User(0, "BOB", "pw", "new@x.io", UserProfile("", ""));
    assert Fold("new@x.io") == "new@x.io";
    assert Fold("BOB") == "bob" == Fold("bob");
    RegisterUsernameTaken(w, other, hash, "bob@x.io");
  }

  /** A registration keeps every user row below the counter. */
  lemma RegisterKeepsCounterAhead(w: UserWorld, user: User, hash: string -> Result<string, Error>)
    requires UserCounterAhead(w)
    ensures UserCounterAhead(Register(w, user, hash).world)
  {
    var r := Register(w, user, hash);
    if r.outcome.Ok? {
      var key := Fold(user.email);
      forall e | e in r.world.users
        ensures r.world.users[e].id < r.world.nextUserId || r.world.users[e].id == MaxInt64
      {
        if e != key {
          assert e in w.users;
        }
      }
    }
  }

  /**
   * While the counter is ahead and not exhausted, a registration with the
   * handler's id 0 can clash only on the e-mail or the username.
   */
  lemma GeneratedUserIdNeverClashes(w: UserWorld, user: User, hashed: string)
    requires UserCounterAhead(w) && w.nextUserId < MaxInt64 && user.id == 0
    ensures Clashes(w.users, StoredUser(w, user, hashed)) <==>
      || Fold(user.email) in w.users
      || exists e :: e in w.users && Fold(w.users[e].username) == Fold(user.username)
  {
  }
}
