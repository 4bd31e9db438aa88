/**
 * The domain entities (package domain) and their validation rules.
 * Validation failures are plain Go errors carrying a fixed text.
 */
module Domain {
  import opened Wrappers
  import opened Errorx
  import Email

  /** Go's int64. */
  type Int64 = x: int | -0x8000_0000_0000_0000 <= x < 0x8000_0000_0000_0000

  /** An instant of Go's time.Time, abstracted to a count; ZeroTime is Go's zero value. */
  datatype Time = Time(instant: int)
  const ZeroTime := Time(0)

  datatype Tag = Tag(id: Int64, name: string)

  datatype Article = Article(id: Int64, title: string, content: string, authorId: Int64, tags: seq<Tag>)

  datatype UserProfile = UserProfile(nickname: string, avatar: string)

  datatype User = User(id: Int64, username: string, passwordHash: string, email: string, profile: UserProfile)

  datatype Comment = Comment(id: Int64, articleId: Int64, userId: Int64, content: string, createdAt: Time)

  const TitleRequired := "title is required"
  const ContentRequired := "content is required"
  const AuthorRequired := "author is required"
  const UsernameRequired := "username is required"
  const InvalidEmailFormat := "invalid email format"

  /** Article.Validate: None is a nil error. Checks run title, content, author. */
  function ValidateArticle(a: Article): (r: Option<Error>)
    ensures r.None? <==> a.title != "" && a.content != "" && a.authorId != 0
    ensures r.Some? ==> r.value in {Plain(TitleRequired), Plain(ContentRequired), Plain(AuthorRequired)}
    ensures a.title == "" ==> r == Some(Plain(TitleRequired))
  {
    if a.title == "" then Some(Plain(TitleRequired))
    else if a.content == "" then Some(Plain(ContentRequired))
    else if a.authorId == 0 then Some(Plain(AuthorRequired))
    else None
  }

  /** User.Validate: username first, then the e-mail pattern. */
  function ValidateUser(u: User): (r: Option<Error>)
    ensures r.None? <==> u.username != "" && Email.MatchesEmailPattern(u.email)
    ensures r.Some? ==> r.value in {Plain(UsernameRequired), Plain(InvalidEmailFormat)}
    ensures u.username == "" ==> r == Some(Plain(UsernameRequired))
  {
    Email.IsValidEmailMatchesPattern(u.email);
    if u.username == "" then Some(Plain(UsernameRequired))
    else if !Email.IsValidEmail(u.email) then Some(Plain(InvalidEmailFormat))
    else None
  }

  /** With several fields missing, the first failing check in title, content, author order names the error. */
  lemma ArticleFirstFailureWins(a: Article)
    ensures a.title != "" && a.content == "" ==> ValidateArticle(a) == Some(Plain(ContentRequired))
    ensures a.title != "" && a.content != "" && a.authorId == 0 ==>
      ValidateArticle(a) == Some(Plain(AuthorRequired))
  {
  }

  /** Only AuthorID zero is rejected: every non-zero author id, negative ones included, passes that check. */
  lemma NegativeAuthorAccepted(a: Article)
    requires a.title != "" && a.content != "" && a.authorId < 0
    ensures ValidateArticle(a).None?
  {
  }

  /** ID and Tags are never inspected. */
  lemma ArticleValidityIgnoresIdAndTags(a: Article, id: Int64, tags: seq<Tag>)
    ensures ValidateArticle(a.(id := id, tags := tags)) == ValidateArticle(a)
  {
  }

  /** The username check runs before the e-mail check. */
  lemma UsernameCheckedBeforeEmail(u: User)
    requires u.username != ""
    ensures ValidateUser(u) == (if Email.IsValidEmail(u.email) then None else Some(Plain(InvalidEmailFormat)))
  {
  }

  /** ID, PasswordHash and Profile are never inspected. */
  lemma UserValidityIgnoresOtherFields(u: User, id: Int64, hash: string, profile: UserProfile)
    ensures ValidateUser(u.(id := id, passwordHash := hash, profile := profile)) == ValidateUser(u)
  {
  }

  /** The cases of the article validation test. */
  lemma ArticleValidationExamples()
    ensures ValidateArticle(Article(0, "Test Title", "Test Content", 1, [])).None?
    ensures ValidateArticle(Article(0, "", "Test Content", 1, [])) == Some(Plain("title is required"))
    ensures ValidateArticle(Article(0, "Test Title", "", 1, [])) == Some(Plain("content is required"))
    ensures ValidateArticle(Article(0, "Test Title", "Test Content", 0, [])) ==
      Some(Plain("author is required"))
  {
  }

  /** The cases of the user validation test. */
  lemma UserValidationExamples()
    ensures ValidateUser(User(0, "testuser", "", "test@example.com", UserProfile("", ""))).None?
    ensures ValidateUser(User(0, "", "", "test@example.com", UserProfile("", ""))) ==
      Some(Plain("username is required"))
    ensures ValidateUser(User(0, "testuser", "", "invalid-email", UserProfile("", ""))) ==
      Some(Plain("invalid email format"))
  {
    Email.ValidEmailExample();
    Email.NoAtRejected();
  }
}
