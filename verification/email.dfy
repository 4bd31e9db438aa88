/**
 * The e-mail acceptance rule of User.Validate: the anchored pattern
 * ^[a-z0-9._%+\-]+@[a-z0-9.\-]+\.[a-z]{2,4}$ , given once as the language
 * the pattern denotes (MatchesEmailPattern) and once as a decidable check
 * (IsValidEmail), with a proof that the two agree.
 */
module Email {

  /** [a-z0-9._%+\-] */
  predicate IsLocalChar(c: char)
  {
    ('a' <= c <= 'z') || ('0' <= c <= '9') || c == '.' || c == '_' || c == '%' || c == '+' || c == '-'
  }

  /** [a-z0-9.\-] */
  predicate IsDomainChar(c: char)
  {
    ('a' <= c <= 'z') || ('0' <= c <= '9') || c == '.' || c == '-'
  }

  /** [a-z] */
  predicate IsTldChar(c: char)
  {
    'a' <= c <= 'z'
  }

  /**
   * s reads local "@" domain "." tld with the '@' at index i and the '.' at
   * index k: one or more local characters, one or more domain characters,
   * then two to four lowercase letters up to the end.
   */
  predicate SplitsAsEmail(s: string, i: int, k: int)
  {
    && 0 < i && i + 1 < k && k < |s|
    && s[i] == '@' && s[k] == '.'
    && 2 <= |s| - (k + 1) <= 4
    && (forall j :: 0 <= j < i ==> IsLocalChar(s[j]))
    && (forall j :: i < j < k ==> IsDomainChar(s[j]))
    && (forall j :: k < j < |s| ==> IsTldChar(s[j]))
  }

  /** The language of the pattern: some split of s matches it. */
  ghost predicate MatchesEmailPattern(s: string)
  {
    exists i, k :: SplitsAsEmail(s, i, k)
  }

  /** Index of the first c in s, or |s| when there is none. */
  function IndexOf(s: string, c: char): (r: nat)
    ensures r <= |s|
    ensures r < |s| ==> s[r] == c
    ensures forall j :: 0 <= j < r ==> s[j] != c
  {
    if |s| == 0 then 0
    else if s[0] == c then 0
    else 1 + IndexOf(s[1..], c)
  }

  /** Index of the last c in s, or -1 when there is none. */
  function LastIndexOf(s: string, c: char): (r: int)
    ensures -1 <= r < |s|
    ensures r >= 0 ==> s[r] == c
    ensures forall j :: r < j < |s| ==> s[j] != c
  {
    if |s| == 0 then -1
    else if s[|s| - 1] == c then |s| - 1
    else LastIndexOf(s[..|s| - 1], c)
  }

  /**
   * The decidable check: split at the first '@' and at the last '.', and
   * test the three character classes and the suffix length.
   */
  predicate IsValidEmail(s: string)
  {
    SplitsAsEmail(s, IndexOf(s, '@'), LastIndexOf(s, '.'))
  }

  /** A matching split is unique: it sits at the first '@' and the last '.'. */
  lemma SplitIsAtFirstAtAndLastDot(s: string, i: int, k: int)
    requires SplitsAsEmail(s, i, k)
    ensures i == IndexOf(s, '@') && k == LastIndexOf(s, '.')
  {
  }

  /** The decidable check accepts exactly the language of the pattern. */
  lemma IsValidEmailMatchesPattern(s: string)
    ensures IsValidEmail(s) <==> MatchesEmailPattern(s)
  {
    if MatchesEmailPattern(s) {
      var i, k :| SplitsAsEmail(s, i, k);
      SplitIsAtFirstAtAndLastDot(s, i, k);
    }
  }

  /** Within a matching split, the '@' at i is the only '@'. */
  lemma SplitHasOneAt(s: string, i: int, k: int)
    requires SplitsAsEmail(s, i, k)
    ensures forall j :: 0 <= j < |s| && j != i ==> s[j] != '@'
  {
    forall j | 0 <= j < |s| && j != i
      ensures s[j] != '@'
    {
      if j < i {
        assert IsLocalChar(s[j]);
      } else if j < k {
        assert IsDomainChar(s[j]);
      } else if k < j {
        assert IsTldChar(s[j]);
      }
    }
  }

  /** Within a matching split, everything after the '.' at k is a lower-case letter. */
  lemma SplitTldLowerCase(s: string, i: int, k: int)
    requires SplitsAsEmail(s, i, k)
    ensures forall j :: k < j < |s| ==> 'a' <= s[j] <= 'z'
  {
    forall j | k < j < |s|
      ensures 'a' <= s[j] <= 'z'
    {
      assert IsTldChar(s[j]);
    }
  }

  /** An accepted address has exactly one '@' and ends in '.' and two to four lowercase letters. */
  lemma AcceptedEmailShape(s: string)
    requires IsValidEmail(s)
    ensures IndexOf(s, '@') < |s|
    ensures forall j :: 0 <= j < |s| && s[j] == '@' ==> j == IndexOf(s, '@')
    ensures var k := LastIndexOf(s, '.');
      && 0 <= k && 2 <= |s| - (k + 1) <= 4
      && forall j :: k < j < |s| ==> 'a' <= s[j] <= 'z'
  {
    var i := IndexOf(s, '@');
    var k := LastIndexOf(s, '.');
    assert SplitsAsEmail(s, i, k);
    SplitHasOneAt(s, i, k);
    SplitTldLowerCase(s, i, k);
  }

  /** The pattern is case-sensitive: an upper-case letter anywhere rejects the address. */
  lemma UpperCaseRejected(s: string, j: int)
    requires 0 <= j < |s| && 'A' <= s[j] <= 'Z'
    ensures !IsValidEmail(s)
  {
  }

  /** The address of the domain test is accepted. */
  lemma ValidEmailExample()
    ensures IsValidEmail("test@example.com")
  {
    var s := "test@example.com";
    assert SplitsAsEmail(s, 4, 12);
    SplitIsAtFirstAtAndLastDot(s, 4, 12);
  }

  /** An address without '@' is rejected. */
  lemma NoAtRejected()
    ensures !IsValidEmail("invalid-email")
  {
    var t := "invalid-email";
    assert forall j :: 0 <= j < |t| ==> t[j] != '@';
  }

  /** An upper-case first letter is rejected. */
  lemma UpperCaseExampleRejected()
    ensures !IsValidEmail("Test@example.com")
  {
    UpperCaseRejected("Test@example.com", 0);
  }

  /** A five-letter suffix after the last '.' is rejected. */
  lemma LongSuffixRejected()
    ensures !IsValidEmail("a@b.toolong")
  {
    var u := "a@b.toolong";
    assert forall j :: 3 < j < |u| ==> u[j] != '.';
  }
}
