/**
 * The cache keys behind the article cache port. GetArticle and
 * DeleteArticle format "article:%d" from uint(id); SetArticle formats the
 * signed article.ID; the collection has a fixed key. The lemmas show the
 * read key is injective over int64 and never the collection key, so the
 * model may index the per-article cache by id, and that the write key
 * agrees with the read key exactly for the non-negative ids.
 */
module CacheKeys {
  import opened Domain

  const CollectionKey := "articles:all"
  const ArticlePrefix := "article:"

  /** 2^64: Go's uint is 64 bits wide. */
  const UintModulus: int := 0x1_0000_0000_0000_0000

  /** Go's conversion uint(id) from int64: two's-complement wrap-around. */
  function ToUint(id: Int64): (u: nat)
    ensures u < UintModulus
    ensures id >= 0 ==> u == id
    ensures id < 0 ==> u == id + UintModulus
  {
    id % UintModulus
  }

  predicate IsDigit(c: char)
  {
    '0' <= c <= '9'
  }

  function DigitChar(d: nat): (c: char)
    requires d < 10
    ensures IsDigit(c)
  {
    ['0', '1', '2', '3', '4', '5', '6', '7', '8', '9'][d]
  }

  function DigitValue(c: char): (d: nat)
    requires IsDigit(c)
    ensures d < 10
    ensures DigitChar(d) == c
  {
    (c as int - '0' as int)
  }

  /** The %d rendering of a non-negative integer. */
  function Decimal(n: nat): (s: string)
    ensures |s| >= 1
    ensures forall j :: 0 <= j < |s| ==> IsDigit(s[j])
  {
    if n < 10 then [DigitChar(n)] else Decimal(n / 10) + [DigitChar(n % 10)]
  }

  /** Reading a string of digits back as a number. */
  function ParseDecimal(s: string): nat
    requires forall j :: 0 <= j < |s| ==> IsDigit(s[j])
  {
    if |s| == 0 then 0 else ParseDecimal(s[..|s| - 1]) * 10 + DigitValue(s[|s| - 1])
  }

  lemma DigitRoundTrip(d: nat)
    requires d < 10
    ensures DigitValue(DigitChar(d)) == d
  {
  }

  /** Parsing undoes formatting. */
  lemma {:induction false} ParseDecimalOfDecimal(n: nat)
    ensures ParseDecimal(Decimal(n)) == n
  {
    DigitRoundTrip(n % 10);
    if n >= 10 {
      var s := Decimal(n);
      assert s[..|s| - 1] == Decimal(n / 10);
      ParseDecimalOfDecimal(n / 10);
    }
  }

  /** The key "article:%d" under which the cache stores article id. */
  function ArticleKey(id: Int64): string
  {
    ArticlePrefix + Decimal(ToUint(id))
  }

  /** Distinct int64 ids get distinct keys. */
  lemma ArticleKeyInjective(i: Int64, j: Int64)
    requires ArticleKey(i) == ArticleKey(j)
    ensures i == j
  {
    var ki, kj := ArticleKey(i), ArticleKey(j);
    assert ki[|ArticlePrefix|..] == Decimal(ToUint(i));
    assert kj[|ArticlePrefix|..] == Decimal(ToUint(j));
    ParseDecimalOfDecimal(ToUint(i));
    ParseDecimalOfDecimal(ToUint(j));
  }

  /** No article key is the collection key, so evicting an article never evicts the collection. */
  lemma ArticleKeyIsNotCollectionKey(id: Int64)
    ensures ArticleKey(id) != CollectionKey
  {
    assert ArticleKey(id)[7] == ':';
    assert CollectionKey[7] == 's';
  }

  /** GetArticle and DeleteArticle use the unsigned rendering: id -5 is read under 2^64 - 5. */
  lemma ArticleKeyExamples()
    ensures ArticleKey(1) == "article:1"
    ensures ArticleKey(42) == "article:42"
    ensures ArticleKey(-5) == ArticlePrefix + Decimal(18446744073709551611)
  {
  }

  /** The %d rendering of a signed integer. */
  function SignedDecimal(n: int): (s: string)
    ensures |s| >= 1
    ensures n >= 0 ==> s == Decimal(n)
    ensures n < 0 ==> s == "-" + Decimal(-n)
  {
    if n < 0 then "-" + Decimal(-n) else Decimal(n)
  }

  /** The key "article:%d" under which SetArticle writes, formatted from the signed article.ID. */
  function SetKey(id: Int64): string
  {
    ArticlePrefix + SignedDecimal(id)
  }

  /** The write key is the key reads and evictions use exactly when the id is non-negative. */
  lemma SetKeyIsArticleKeyIffNonNegative(id: Int64)
    ensures SetKey(id) == ArticleKey(id) <==> id >= 0
  {
    if id < 0 {
      assert SetKey(id)[|ArticlePrefix|] == '-';
      assert IsDigit(ArticleKey(id)[|ArticlePrefix|]);
    }
  }

  /** A negative id's write key is no id's read key and not the collection key: nothing ever reads it back. */
  lemma NegativeSetKeyIsNeverRead(id: Int64, other: Int64)
    requires id < 0
    ensures SetKey(id) != ArticleKey(other)
    ensures SetKey(id) != CollectionKey
  {
    assert SetKey(id)[|ArticlePrefix|] == '-';
    assert IsDigit(ArticleKey(other)[|ArticlePrefix|]);
    assert CollectionKey[7] == 's' && SetKey(id)[7] == ':';
  }

  lemma SetKeyExamples()
    ensures SetKey(42) == "article:42"
    ensures SetKey(-5) == "article:-5"
  {
  }
}
