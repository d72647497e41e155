/**
 * The email recognizer used to classify lookup keys. The pattern is anchored at
 * both ends, so a string is an email exactly when the whole of it reads as
 *   local part   one or more of  A-Z a-z 0-9 . _ % + -
 *   '@'
 *   domain       one or more of  A-Z a-z 0-9 . -
 *   '.'
 *   top level    two or more of  A-Z a-z
 */
module Utils {

  predicate IsAsciiLetter(c: char) {
    'a' <= c <= 'z' || 'A' <= c <= 'Z'
  }

  predicate IsAsciiDigit(c: char) {
    '0' <= c <= '9'
  }

  predicate IsLocalChar(c: char) {
    IsAsciiLetter(c) || IsAsciiDigit(c) || c == '.' || c == '_' || c == '%' || c == '+' || c == '-'
  }

  predicate IsDomainChar(c: char) {
    IsAsciiLetter(c) || IsAsciiDigit(c) || c == '.' || c == '-'
  }

  predicate AllLocal(s: string) {
    forall i :: 0 <= i < |s| ==> IsLocalChar(s[i])
  }

  predicate AllDomain(s: string) {
    forall i :: 0 <= i < |s| ==> IsDomainChar(s[i])
  }

  predicate AllLetters(s: string) {
    forall i :: 0 <= i < |s| ==> IsAsciiLetter(s[i])
  }

  /** The pattern with `at` as its '@' and `dot` as the '.' before the top-level part. */
  ghost predicate SplitMatches(s: string, at: int, dot: int) {
    && 1 <= at && at + 2 <= dot && dot + 3 <= |s|
    && s[at] == '@' && s[dot] == '.'
    && AllLocal(s[..at]) && AllDomain(s[at + 1..dot]) && AllLetters(s[dot + 1..])
  }

  /** The language of the anchored pattern: some way of cutting the whole string into its five parts. */
  ghost predicate MatchesPattern(s: string) {
    exists at, dot :: SplitMatches(s, at, dot)
  }

  /** Position of the first `c` in `s`, or `|s|` when there is none. */
  function FirstIndex(s: string, c: char): (r: nat)
    ensures r <= |s|
    ensures r < |s| ==> s[r] == c
    ensures forall j :: 0 <= j < r ==> s[j] != c
  {
    if s == [] then 0 else if s[0] == c then 0 else 1 + FirstIndex(s[1..], c)
  }

  /** Position of the last `c` in `s`, or -1 when there is none. */
  function LastIndex(s: string, c: char): (r: int)
    ensures -1 <= r < |s|
    ensures r >= 0 ==> s[r] == c
    ensures forall j :: r < j < |s| ==> s[j] != c
  {
    if s == [] then -1 else if s[|s| - 1] == c then |s| - 1 else LastIndex(s[..|s| - 1], c)
  }

  /**
   * The recognizer: the local part runs up to the first '@'; in what follows,
   * the last '.' separates the domain from the top-level part.
   */
  predicate IsEmail(s: string)
    ensures IsEmail(s) ==> 6 <= |s|
  {
    var at := FirstIndex(s, '@');
    && 1 <= at < |s|
    && AllLocal(s[..at])
    && var rest := s[at + 1..];
       var dot := LastIndex(rest, '.');
       && 1 <= dot
       && |rest| - dot - 1 >= 2
       && AllDomain(rest[..dot])
       && AllLetters(rest[dot + 1..])
  }

  /** The recognizer accepts exactly the strings the anchored pattern matches. */
  lemma IsEmailIffPattern(s: string)
    ensures IsEmail(s) <==> MatchesPattern(s)
  {
    if IsEmail(s) {
      var at, dot := CanonicalSplit(s);
    }
    if MatchesPattern(s) {
      var at, dot :| SplitMatches(s, at, dot);
      SplitIsCanonical(s, at, dot);
    }
  }

  /** The recognizer as a call site uses it: one answer for the whole string, that of the anchored pattern. */
  method CheckEmail(s: string) returns (ok: bool)
    ensures ok <==> MatchesPattern(s)
  {
    IsEmailIffPattern(s);
    ok := IsEmail(s);
  }

  /** An accepted string cut at its first '@' and its last '.' matches the pattern. */
  lemma CanonicalSplit(s: string) returns (at: int, dot: int)
    requires IsEmail(s)
    ensures SplitMatches(s, at, dot)
    ensures at == FirstIndex(s, '@') && dot == LastIndex(s, '.')
  {
    at := FirstIndex(s, '@');
    var rest := s[at + 1..];
    var d := LastIndex(rest, '.');
    dot := at + 1 + d;
    assert s[at + 1..dot] == rest[..d];
    ShiftedSuffix(s, at + 1, d);
    LastIndexIs(s, '.', dot);
  }

  /** Any way of matching the pattern uses the first '@' and the last '.'. */
  lemma SplitIsCanonical(s: string, at: int, dot: int)
    requires SplitMatches(s, at, dot)
    ensures FirstIndex(s, '@') == at
    ensures LastIndex(s[at + 1..], '.') == dot - at - 1
    ensures IsEmail(s)
  {
    FirstAtIs(s, at);
    var rest := s[at + 1..];
    var d := dot - at - 1;
    RestParts(s, at, dot);
    NoDotAfter(rest, d);
    LastIndexIs(rest, '.', d);
  }

  lemma FirstAtIs(s: string, at: int)
    requires 0 <= at < |s| && s[at] == '@' && AllLocal(s[..at])
    ensures FirstIndex(s, '@') == at
  {
    forall j | 0 <= j < at ensures s[j] != '@' {
      assert s[j] == s[..at][j];
    }
    FirstIndexIs(s, '@', at);
  }

  lemma FirstIndexIs(s: string, c: char, k: int)
    requires 0 <= k < |s| && s[k] == c
    requires forall j :: 0 <= j < k ==> s[j] != c
    ensures FirstIndex(s, c) == k
  {
  }

  /** The remainder after the '@' reads as the domain, the '.', and the top-level part. */
  lemma RestParts(s: string, at: int, dot: int)
    requires SplitMatches(s, at, dot)
    ensures var rest, d := s[at + 1..], dot - at - 1;
      && 0 <= d < |rest| && rest[d] == '.'
      && rest[..d] == s[at + 1..dot] && rest[d + 1..] == s[dot + 1..]
      && AllDomain(rest[..d]) && AllLetters(rest[d + 1..])
  {
  }

  lemma NoDotAfter(t: string, d: int)
    requires 0 <= d < |t| && AllLetters(t[d + 1..])
    ensures forall j :: d < j < |t| ==> t[j] != '.'
  {
    forall j | d < j < |t| ensures t[j] != '.' {
      assert t[j] == t[d + 1..][j - d - 1];
    }
  }

  lemma LastIndexIs(s: string, c: char, k: int)
    requires 0 <= k < |s| && s[k] == c
    requires forall j :: k < j < |s| ==> s[j] != c
    ensures LastIndex(s, c) == k
  {
  }

  /** The last '.' of a suffix that contains one is the last '.' of the whole string. */
  lemma ShiftedSuffix(s: string, off: nat, dot: int)
    requires off <= |s| && 0 <= dot < |s| - off
    requires s[off..][dot] == '.'
    requires forall j :: dot < j < |s| - off ==> s[off..][j] != '.'
    requires AllLetters(s[off..][dot + 1..])
    ensures s[off + dot] == '.'
    ensures forall j :: off + dot < j < |s| ==> s[j] != '.'
    ensures AllLetters(s[off + dot + 1..])
  {
    assert s[off..][dot + 1..] == s[off + dot + 1..];
    forall j | off + dot < j < |s| ensures s[j] != '.' {
      assert s[j] == s[off..][j - off];
    }
  }

  lemma Absent(t: string, c: char)
    requires forall j :: 0 <= j < |t| ==> t[j] != c
    ensures multiset(t)[c] == 0
  {
  }

  /** An accepted string has exactly one '@': neither character class contains it. */
  lemma EmailHasOneAt(s: string)
    requires IsEmail(s)
    ensures multiset(s)['@'] == 1
  {
    var at, dot := CanonicalSplit(s);
    SplitHasOneAt(s, at, dot);
  }

  lemma SplitHasOneAt(s: string, at: int, dot: int)
    requires SplitMatches(s, at, dot)
    ensures multiset(s)['@'] == 1
  {
    var local, domain, top := s[..at], s[at + 1..dot], s[dot + 1..];
    assert s == local + [s[at]] + domain + [s[dot]] + top;
    forall j | 0 <= j < |local| ensures local[j] != '@' {
      assert IsLocalChar(local[j]);
    }
    forall j | 0 <= j < |domain| ensures domain[j] != '@' {
      assert IsDomainChar(domain[j]);
    }
    forall j | 0 <= j < |top| ensures top[j] != '@' {
      assert IsAsciiLetter(top[j]);
    }
    Absent(local, '@');
    Absent(domain, '@');
    Absent(top, '@');
    assert multiset(s) == multiset(local) + multiset{s[at]} + multiset(domain) + multiset{s[dot]} + multiset(top);
  }

  /**
   * In an accepted string a '.' follows the '@', and everything after the last
   * '.' is two or more ASCII letters.
   */
  lemma EmailEndsInLetters(s: string)
    requires IsEmail(s)
    ensures FirstIndex(s, '@') < LastIndex(s, '.')
    ensures |s| - LastIndex(s, '.') - 1 >= 2
    ensures AllLetters(s[LastIndex(s, '.') + 1..])
  {
    var at, dot := CanonicalSplit(s);
    SplitEnds(s, at, dot);
  }

  lemma SplitEnds(s: string, at: int, dot: int)
    requires SplitMatches(s, at, dot)
    ensures at < dot && |s| - dot - 1 >= 2 && AllLetters(s[dot + 1..])
  {
  }

  /** Every character of an accepted string is a local-part character or the '@'. */
  lemma EmailAlphabet(s: string)
    requires IsEmail(s)
    ensures forall i :: 0 <= i < |s| ==> IsLocalChar(s[i]) || s[i] == '@'
  {
    var at, dot := CanonicalSplit(s);
    forall i | 0 <= i < |s| ensures IsLocalChar(s[i]) || s[i] == '@' {
      if i < at {
        assert s[i] == s[..at][i];
      } else if at < i < dot {
        assert s[i] == s[at + 1..dot][i - at - 1];
      } else if i > dot {
        assert s[i] == s[dot + 1..][i - dot - 1];
      }
    }
  }

  /** No whitespace, and no '@' at either end; so the empty string is rejected too. */
  lemma EmailRejects(s: string)
    ensures s == "" ==> !IsEmail(s)
    ensures |s| > 0 && (s[0] == '@' || s[|s| - 1] == '@') ==> !IsEmail(s)
    ensures (exists i :: 0 <= i < |s| && (s[i] == ' ' || s[i] == '\t' || s[i] == '\n' || s[i] == '\r')) ==> !IsEmail(s)
  {
    if IsEmail(s) {
      EmailAlphabet(s);
      EmailEndsInLetters(s);
      assert IsAsciiLetter(s[LastIndex(s, '.') + 1..][|s| - LastIndex(s, '.') - 2]);
    }
  }
}
