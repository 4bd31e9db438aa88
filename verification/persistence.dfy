/**
 * The GORM persistence models and their conversions to and from the domain
 * entities. The conversions are field copies; the article conversion loses
 * Tags, and the models' timestamps are never carried into the domain.
 */
module Persistence {
  import opened Errorx
  import opened Domain

  /**
   * A stand-in for the error the MySQL driver reports when an insert would
   * break the primary key or a unique index (error 1062). GORM passes it on
   * untranslated; the use-cases wrap any Create error alike, so only its
   * being an error matters.
   */
  const DuplicatedKey := Plain("duplicated key not allowed")

  /** Go's largest int64, the last value a BIGINT auto-increment column can take. */
  const MaxInt64: Int64 := 0x7FFF_FFFF_FFFF_FFFF

  /** The id a GORM Create gives the row: its own when non-zero, otherwise the counter's. */
  function InsertId(id: Int64, next: Int64): Int64
  {
    if id == 0 then next else id
  }

  /**
   * MySQL's AUTO_INCREMENT counter after an insert of `id`: it moves just
   * past the inserted id when that id is not below it, whether the id was
   * generated or explicit, and stays at the largest int64 once it gets
   * there, so the next generated id clashes.
   */
  function NextCounter(id: Int64, next: Int64): (r: Int64)
    ensures next <= r
    ensures InsertId(id, next) < r || r == MaxInt64
    ensures r == next || r == InsertId(id, next) + 1 || r == InsertId(id, next) == MaxInt64
  {
    var taken := InsertId(id, next);
    if taken < next then next
    else if taken < MaxInt64 then taken + 1
    else MaxInt64
  }

  /** An upper-case ASCII letter becomes its lower-case form; any other character is kept. */
  function FoldChar(c: char): char
  {
    if 'A' <= c <= 'Z' then (c as int + 32) as char else c
  }

  /**
   * ASCII case folding: two strings are equal under MySQL's default utf8mb4
   * collation, as far as case goes, exactly when their folds are equal.
   */
  function Fold(s: string): string
  {
    seq(|s|, i requires 0 <= i < |s| => FoldChar(s[i]))
  }

  /** Folding is idempotent, so folded keys compare as their originals do. */
  lemma FoldIdempotent(s: string)
    ensures Fold(Fold(s)) == Fold(s)
  {
  }

  lemma FoldExamples()
    ensures Fold("Bob@x.io") == Fold("bob@x.io") == "bob@x.io"
    ensures Fold("alice") != Fold("alicia")
  {
    assert Fold("alice")[4] == 'e' && Fold("alicia")[4] == 'i';
  }

  datatype ArticleModel = ArticleModel(
    id: Int64, title: string, content: string, authorId: Int64, createdAt: Time, updatedAt: Time)

  datatype UserModel = UserModel(
    id: Int64, username: string, passwordHash: string, email: string,
    nickname: string, avatar: string, createdAt: Time, updatedAt: Time)

  datatype TagModel = TagModel(id: Int64, name: string)

  datatype CommentModel = CommentModel(
    id: Int64, articleId: Int64, userId: Int64, content: string, createdAt: Time)

  // ----- Article -----

  /** ArticleModel.ToDomain: the domain article never carries tags. */
  function ArticleToDomain(m: ArticleModel): Article
  {
    Article(m.id, m.title, m.content, m.authorId, [])
  }

  /** FromDomain: timestamps start at Go's zero time; the store fills them in. */
  function ArticleFromDomain(a: Article): ArticleModel
  {
    ArticleModel(a.id, a.title, a.content, a.authorId, ZeroTime, ZeroTime)
  }

  /** Domain to model and back loses exactly the tags. */
  lemma ArticleRoundTrip(a: Article)
    ensures ArticleToDomain(ArticleFromDomain(a)) == a.(tags := [])
    ensures ArticleToDomain(ArticleFromDomain(a)) == a <==> a.tags == []
  {
  }

  /** FromDomain copies the four columns unchanged; ToDomain copies them back and never yields tags. */
  lemma ArticleFieldsCopied(a: Article, m: ArticleModel)
    ensures var f := ArticleFromDomain(a);
      f.id == a.id && f.title == a.title && f.content == a.content && f.authorId == a.authorId
    ensures var d := ArticleToDomain(m);
      && d.id == m.id && d.title == m.title && d.content == m.content && d.authorId == m.authorId
      && d.tags == []
  {
  }

  /** Model to domain and back loses exactly the timestamps. */
  lemma ArticleModelRoundTrip(m: ArticleModel)
    ensures ArticleFromDomain(ArticleToDomain(m)) == m.(createdAt := ZeroTime, updatedAt := ZeroTime)
  {
  }

  // ----- User -----

  /** UserModel.ToDomain: the flat nickname and avatar columns become the profile. */
  function UserToDomain(m: UserModel): User
  {
    User(m.id, m.username, m.passwordHash, m.email, UserProfile(m.nickname, m.avatar))
  }

  /** FromDomainUser: the profile is flattened into columns; timestamps are left zero. */
  function UserFromDomain(u: User): UserModel
  {
    UserModel(u.id, u.username, u.passwordHash, u.email,
              u.profile.nickname, u.profile.avatar, ZeroTime, ZeroTime)
  }

  /** Every column is copied to its own field: Nickname and Avatar to their own columns and back. */
  lemma UserFieldsCopied(u: User, m: UserModel)
    ensures var f := UserFromDomain(u);
      && f.id == u.id && f.username == u.username && f.passwordHash == u.passwordHash && f.email == u.email
      && f.nickname == u.profile.nickname && f.avatar == u.profile.avatar
    ensures var d := UserToDomain(m);
      && d.id == m.id && d.username == m.username && d.passwordHash == m.passwordHash && d.email == m.email
      && d.profile.nickname == m.nickname && d.profile.avatar == m.avatar
  {
  }

  /** Domain to model and back is lossless; the password hash is copied, never rehashed. */
  lemma UserRoundTrip(u: User)
    ensures UserToDomain(UserFromDomain(u)) == u
    ensures UserFromDomain(u).passwordHash == u.passwordHash
  {
  }

  /** Model to domain and back loses exactly the timestamps. */
  lemma UserModelRoundTrip(m: UserModel)
    ensures UserFromDomain(UserToDomain(m)) == m.(createdAt := ZeroTime, updatedAt := ZeroTime)
    ensures UserToDomain(m).passwordHash == m.passwordHash
  {
  }

  // ----- Tag -----

  function TagToDomain(m: TagModel): Tag
  {
    Tag(m.id, m.name)
  }

  function TagFromDomain(t: Tag): TagModel
  {
    TagModel(t.id, t.name)
  }

  /** ID and Name are copied in both directions. */
  lemma TagFieldsCopied(t: Tag, m: TagModel)
    ensures TagFromDomain(t).id == t.id && TagFromDomain(t).name == t.name
    ensures TagToDomain(m).id == m.id && TagToDomain(m).name == m.name
  {
  }

  /** The tag conversions are mutual inverses, the empty name included. */
  lemma TagRoundTrip(t: Tag, m: TagModel)
    ensures TagToDomain(TagFromDomain(t)) == t
    ensures TagFromDomain(TagToDomain(m)) == m
  {
  }

  // ----- Comment -----

  function CommentToDomain(m: CommentModel): Comment
  {
    Comment(m.id, m.articleId, m.userId, m.content, m.createdAt)
  }

  function CommentFromDomain(c: Comment): CommentModel
  {
    CommentModel(c.id, c.articleId, c.userId, c.content, c.createdAt)
  }

  /**
   * Each of the five fields is copied to the field of the same name: ArticleID
   * and UserID are never swapped.
   */
  lemma CommentFieldsCopied(c: Comment, m: CommentModel)
    ensures var f := CommentFromDomain(c);
      && f.id == c.id && f.articleId == c.articleId && f.userId == c.userId
      && f.content == c.content && f.createdAt == c.createdAt
    ensures var d := CommentToDomain(m);
      && d.id == m.id && d.articleId == m.articleId && d.userId == m.userId
      && d.content == m.content && d.createdAt == m.createdAt
  {
  }

  /** The comment conversions are mutual inverses on all five fields, CreatedAt included. */
  lemma CommentRoundTrip(c: Comment, m: CommentModel)
    ensures CommentToDomain(CommentFromDomain(c)) == c
    ensures CommentFromDomain(CommentToDomain(m)) == m
  {
  }
}
