/**
 * The User schema of backend/models/User.js: the record shape, its defaults, the
 * `authProvider` enum, the lowercase setter on `email`, the email pattern
 *   ^\w+([.-]?\w+)*@\w+([.-]?\w+)*(\.\w{2,3})+$
 * and what `User.create` does with a set of fields (setters, defaults, validation).
 */
module UserSchema {
  import opened Wrappers

  type UserId = nat

  const NameMaxLength := 50

  datatype AuthProvider = EmailProvider | GoogleProvider

  const DefaultProvider := EmailProvider

  /** The enum check on `authProvider`: only 'email' and 'google' are admitted. */
  function ParseProvider(s: string): (r: Option<AuthProvider>)
    ensures r.Some? <==> s == "email" || s == "google"
  {
    if s == "email" then Some(EmailProvider)
    else if s == "google" then Some(GoogleProvider)
    else None
  }

  /** The string stored for a provider; it is admitted by the enum check and reads back as the same provider. */
  function ProviderName(p: AuthProvider): (s: string)
    ensures ParseProvider(s) == Some(p)
  {
    match p
    case EmailProvider => "email"
    case GoogleProvider => "google"
  }

  datatype Avatar = Avatar(publicId: Option<string>, url: Option<string>)

  const NoAvatar := Avatar(None, None)

  datatype User = User(
    id: UserId,
    name: string,
    email: string,
    avatar: Avatar,
    authProvider: AuthProvider,
    isVerified: bool)

  /** The fields handed to `User.create`; an empty name or email stands for an absent one. */
  datatype UserFields = UserFields(
    name: string,
    email: string,
    avatar: Avatar,
    authProvider: Option<string>,
    isVerified: Option<bool>)

  // ---------------------------------------------------------------- lower case

  function LowerChar(c: char): char {
    if 'A' <= c <= 'Z' then (c as int - 'A' as int + 'a' as int) as char else c
  }

  /** The `lowercase: true` setter (ASCII letters). */
  function Lower(s: string): (r: string)
    ensures |r| == |s|
    ensures forall i :: 0 <= i < |r| ==> !('A' <= r[i] <= 'Z')
    ensures forall i :: 0 <= i < |s| && !('A' <= s[i] <= 'Z') ==> r[i] == s[i]
    ensures forall i :: 0 <= i < |s| && 'A' <= s[i] <= 'Z' ==> r[i] as int == s[i] as int - 'A' as int + 'a' as int
  {
    seq(|s|, i requires 0 <= i < |s| => LowerChar(s[i]))
  }

  /** Lower-casing twice is lower-casing once: a stored email is already in its stored form. */
  lemma LowerIdempotent(s: string)
    ensures Lower(Lower(s)) == Lower(s)
  {
    assert forall i :: 0 <= i < |s| ==> LowerChar(LowerChar(s[i])) == LowerChar(s[i]);
  }

  // ------------------------------------------------------------- email pattern

  /** `\w` */
  predicate IsWordChar(c: char) {
    'a' <= c <= 'z' || 'A' <= c <= 'Z' || '0' <= c <= '9' || c == '_'
  }

  /** `[.-]` */
  predicate IsSeparator(c: char) {
    c == '.' || c == '-'
  }

  predicate AllWord(s: string) {
    forall i :: 0 <= i < |s| ==> IsWordChar(s[i])
  }

  /**
   * `\w+([.-]?\w+)*`: a word character, then either nothing, or a string of
   * the same shape, or one separator followed by a string of the same shape.
   */
  predicate DottedWord(s: string)
    decreases |s|
  {
    && |s| >= 1
    && IsWordChar(s[0])
    && (|s| == 1 || DottedWord(s[1..]) || (IsSeparator(s[1]) && DottedWord(s[2..])))
  }

  /** `(\.\w{2,3})+`: one or more final labels of two or three word characters. */
  predicate TldBlocks(s: string)
    decreases |s|
  {
    && |s| >= 3
    && s[0] == '.' && IsWordChar(s[1]) && IsWordChar(s[2])
    && (|s| == 3 || TldBlocks(s[3..]) || (IsWordChar(s[3]) && (|s| == 4 || TldBlocks(s[4..]))))
  }

  /** The three parts of the regular expression: local part, domain, final labels. */
  predicate RegexSplit(s: string, at: nat, tld: nat) {
    && at < tld <= |s|
    && s[at] == '@'
    && DottedWord(s[..at])
    && DottedWord(s[at + 1..tld])
    && TldBlocks(s[tld..])
  }

  /** `s` matches the schema's regular expression, read as the expression is written. */
  ghost predicate MatchesEmailRegex(s: string) {
    exists at: nat, tld: nat :: RegexSplit(s, at, tld)
  }

  /** The domain ends in `.` and `n` word characters, after a `\w+([.-]?\w+)*` prefix. */
  predicate EndsWithLabel(d: string, n: nat) {
    && |d| >= n + 2
    && d[|d| - n - 1] == '.'
    && AllWord(d[|d| - n..])
    && DottedWord(d[..|d| - n - 1])
  }

  predicate EmailDomain(d: string) {
    EndsWithLabel(d, 2) || EndsWithLabel(d, 3)
  }

  /** The schema's email pattern, checked directly: one `@`, a dotted local part, a domain ending in a 2- or 3-character label. */
  predicate EmailPattern(s: string)
    ensures EmailPattern(s) ==> |s| >= 6
  {
    exists at :: 0 <= at < |s| && s[at] == '@' && DottedWord(s[..at]) && EmailDomain(s[at + 1..])
  }

  lemma {:induction false} AllWordIsDotted(w: string)
    requires |w| >= 1 && AllWord(w)
    ensures DottedWord(w)
    decreases |w|
  {
    if |w| > 1 {
      AllWordIsDotted(w[1..]);
    }
  }

  /** A `\w+([.-]?\w+)*` string followed by `.` and word characters is again of that shape. */
  lemma {:induction false} DottedThenLabel(p: string, b: string)
    requires DottedWord(p) && |b| >= 2 && b[0] == '.' && AllWord(b[1..])
    ensures DottedWord(p + b)
    decreases |p|
  {
    var t := p + b;
    if |p| == 1 {
      assert t[1] == '.' && t[2..] == b[1..];
      AllWordIsDotted(b[1..]);
    } else if DottedWord(p[1..]) {
      DottedThenLabel(p[1..], b);
      assert t[1..] == p[1..] + b;
    } else {
      DottedThenLabel(p[2..], b);
      assert t[2..] == p[2..] + b;
    }
  }

  /** A domain prefix and one label of `n` word characters end the domain in that label. */
  lemma LastLabel(p: string, q: string)
    requires DottedWord(p) && 3 <= |q| <= 4 && q[0] == '.' && AllWord(q[1..])
    ensures EndsWithLabel(p + q, |q| - 1)
  {
    var d := p + q;
    assert d[..|p|] == p && d[|p| + 1..] == q[1..];
  }

  /** The first label of a run of final labels: `.` and two or three word characters. */
  lemma FirstLabel(q: string, n: nat)
    requires TldBlocks(q) && (n == 3 || (n == 4 && |q| >= 4 && IsWordChar(q[3])))
    ensures q[..n][0] == '.' && AllWord(q[..n][1..])
  {
    assert q[..n][1..] == q[1..n];
  }

  /** A domain prefix followed by one or more final labels ends in a single final label after a longer prefix. */
  lemma {:induction false} DomainFromBlocks(p: string, q: string)
    requires DottedWord(p) && TldBlocks(q)
    ensures EmailDomain(p + q)
    decreases |q|
  {
    if |q| == 3 {
      FirstLabel(q, 3);
      assert q[..3] == q;
      LastLabel(p, q);
    } else if TldBlocks(q[3..]) {
      FirstLabel(q, 3);
      DottedThenLabel(p, q[..3]);
      DomainFromBlocks(p + q[..3], q[3..]);
      assert (p + q[..3]) + q[3..] == p + q;
    } else if |q| == 4 {
      FirstLabel(q, 4);
      assert q[..4] == q;
      LastLabel(p, q);
    } else {
      FirstLabel(q, 4);
      DottedThenLabel(p, q[..4]);
      DomainFromBlocks(p + q[..4], q[4..]);
      assert (p + q[..4]) + q[4..] == p + q;
    }
  }

  /** `.` followed by two or three word characters is a single final label. */
  lemma SingleLabel(q: string)
    requires 3 <= |q| <= 4 && q[0] == '.' && AllWord(q[1..])
    ensures TldBlocks(q)
  {
    assert IsWordChar(q[1..][0]) && IsWordChar(q[1..][1]);
    if |q| == 4 {
      assert IsWordChar(q[1..][2]);
    }
  }

  /** A split found by the hand-coded check is a split of the regular expression. */
  lemma PatternSplitIsRegexSplit(s: string, at: nat)
    requires at < |s| && s[at] == '@' && DottedWord(s[..at]) && EmailDomain(s[at + 1..])
    ensures exists tld: nat :: RegexSplit(s, at, tld)
  {
    var d := s[at + 1..];
    var n := if EndsWithLabel(d, 2) then 2 else 3;
    var k := |d| - n - 1;
    var tld := at + 1 + k;
    assert s[at + 1..tld] == d[..k];
    assert s[tld..] == d[k..];
    assert d[k..][1..] == d[|d| - n..];
    SingleLabel(s[tld..]);
    assert RegexSplit(s, at, tld);
  }

  /** A split of the regular expression gives a split the hand-coded check finds. */
  lemma RegexSplitIsPatternSplit(s: string, at: nat, tld: nat)
    requires RegexSplit(s, at, tld)
    ensures EmailPattern(s)
  {
    DomainFromBlocks(s[at + 1..tld], s[tld..]);
    assert s[at + 1..tld] + s[tld..] == s[at + 1..];
  }

  /** The hand-coded check accepts exactly the strings the schema's regular expression matches. */
  lemma EmailPatternIsRegex(s: string)
    ensures EmailPattern(s) <==> MatchesEmailRegex(s)
  {
    if EmailPattern(s) {
      var at :| 0 <= at < |s| && s[at] == '@' && DottedWord(s[..at]) && EmailDomain(s[at + 1..]);
      PatternSplitIsRegexSplit(s, at);
    }
    if MatchesEmailRegex(s) {
      var at: nat, tld: nat :| RegexSplit(s, at, tld);
      RegexSplitIsPatternSplit(s, at, tld);
    }
  }

  /** Lower-casing a character does not move it into or out of `\w`, `[.-]` or `@`. */
  lemma LowerCharClasses(c: char)
    ensures IsWordChar(LowerChar(c)) == IsWordChar(c)
    ensures IsSeparator(LowerChar(c)) == IsSeparator(c)
    ensures (LowerChar(c) == '@') == (c == '@') && (LowerChar(c) == '.') == (c == '.')
  {
  }

  lemma {:induction false} LowerKeepsAllWord(s: string)
    ensures AllWord(Lower(s)) == AllWord(s)
  {
    forall i | 0 <= i < |s| ensures IsWordChar(Lower(s)[i]) == IsWordChar(s[i]) {
      LowerCharClasses(s[i]);
    }
  }

  /** Lower-casing keeps the shape of every part of an address. */
  lemma {:induction false} LowerKeepsDotted(s: string)
    ensures DottedWord(Lower(s)) == DottedWord(s)
    decreases |s|
  {
    var t := Lower(s);
    if |s| >= 1 {
      assert t[0] == LowerChar(s[0]);
      LowerCharClasses(s[0]);
    }
    if |s| >= 2 {
      assert t[1] == LowerChar(s[1]);
      LowerCharClasses(s[1]);
      assert t[1..] == Lower(s[1..]);
      assert t[2..] == Lower(s[2..]);
      LowerKeepsDotted(s[1..]);
      LowerKeepsDotted(s[2..]);
    }
  }

  lemma LowerKeepsLabel(d: string, n: nat)
    requires n == 2 || n == 3
    ensures EndsWithLabel(Lower(d), n) == EndsWithLabel(d, n)
  {
    var t := Lower(d);
    if |d| >= n + 2 {
      assert t[|d| - n - 1] == LowerChar(d[|d| - n - 1]);
      LowerCharClasses(d[|d| - n - 1]);
      assert t[..|d| - n - 1] == Lower(d[..|d| - n - 1]);
      assert t[|d| - n..] == Lower(d[|d| - n..]);
      LowerKeepsDotted(d[..|d| - n - 1]);
      LowerKeepsAllWord(d[|d| - n..]);
    }
  }

  /** The pattern is insensitive to the lowercase setter, so validating the stored form validates the submitted one. */
  lemma LowerKeepsPattern(s: string)
    ensures EmailPattern(Lower(s)) == EmailPattern(s)
  {
    forall at | 0 <= at < |s|
      ensures (Lower(s)[at] == '@' && DottedWord(Lower(s)[..at]) && EmailDomain(Lower(s)[at + 1..]))
          == (s[at] == '@' && DottedWord(s[..at]) && EmailDomain(s[at + 1..]))
    {
      assert Lower(s)[at] == LowerChar(s[at]);
      LowerCharClasses(s[at]);
      assert Lower(s)[..at] == Lower(s[..at]);
      assert Lower(s)[at + 1..] == Lower(s[at + 1..]);
      LowerKeepsDotted(s[..at]);
      LowerKeepsLabel(s[at + 1..], 2);
      LowerKeepsLabel(s[at + 1..], 3);
    }
  }

  /** The pattern admits a three-letter final label such as `.com`. */
  lemma ThreeLetterLabel()
    ensures EmailPattern("ann@example.com")
  {
    var ok := "ann@example.com";
    var local, dom := ok[..3], ok[4..];
    assert local == "ann" && dom == "example.com";
    AllWordIsDotted(local);
    assert dom[..7] == "example" && dom[8..] == "com";
    AllWordIsDotted(dom[..7]);
    assert EndsWithLabel(dom, 3);
    assert ok[3] == '@' && DottedWord(ok[..3]) && EmailDomain(ok[4..]);
  }

  /** The pattern refuses a four-letter final label such as `.info`. */
  lemma FourLetterLabel()
    ensures !EmailPattern("ann@example.info")
  {
    var bad := "ann@example.info";
    forall at | 0 <= at < |bad| && bad[at] == '@'
      ensures !EmailDomain(bad[at + 1..])
    {
      assert at == 3;
      assert bad[4..] == "example.info";
    }
  }

  // -------------------------------------------------------------- the record

  /** What the schema admits as a stored user: a name of 1 to 50 characters and a lower-cased email that matches the pattern. */
  predicate ValidRecord(u: User) {
    && u.name != ""
    && |u.name| <= NameMaxLength
    && u.email == Lower(u.email)
    && EmailPattern(u.email)
  }

  /**
   * `User.create(fields)`: the lowercase setter, then the defaults, then validation
   * (required, maxlength, match, enum). None is the validation error that `create` throws.
   */
  function Create(f: UserFields, id: UserId): (r: Option<User>)
    ensures r.Some? <==>
      && f.name != "" && |f.name| <= NameMaxLength
      && EmailPattern(f.email)
      && (f.authProvider.Some? ==> f.authProvider.value in ["email", "google"])
    ensures r.Some? ==>
      && ValidRecord(r.value)
      && r.value.id == id && r.value.name == f.name && r.value.avatar == f.avatar
      && r.value.email == Lower(f.email)
      && (f.authProvider.None? ==> r.value.authProvider == EmailProvider)
      && (f.authProvider.Some? ==> ProviderName(r.value.authProvider) == f.authProvider.value)
      && r.value.isVerified == (f.isVerified.Some? && f.isVerified.value)
  {
    LowerKeepsPattern(f.email);
    LowerIdempotent(f.email);
    var email := Lower(f.email);
    var provider := if f.authProvider.None? then Some(DefaultProvider) else ParseProvider(f.authProvider.value);
    if f.name == "" || |f.name| > NameMaxLength || !EmailPattern(email) || provider.None? then None
    else Some(User(id, f.name, email, f.avatar, provider.value, f.isVerified.GetOr(false)))
  }
}
