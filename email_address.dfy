/**
 * Normalisation and validation of a submitted e-mail address:
 * `toLowerCase().trim()` followed by the test against
 * `/^[^\s@]+@[^\s@]+\.[^\s@]+$/`.
 */
module EmailAddress {
  import opened Sequences

  /**
   * JavaScript's white space: what `trim()` strips and what `\s` matches
   * (WhiteSpace and LineTerminator of ECMAScript, the same set for both).
   */
  predicate IsWhitespace(c: char) {
    || c == '\t' || c == '\n' || c == '\U{000B}' || c == '\U{000C}' || c == '\r'
    || c == ' ' || c == '\U{00A0}' || c == '\U{1680}'
    || ('\U{2000}' <= c <= '\U{200A}')
    || c == '\U{2028}' || c == '\U{2029}' || c == '\U{202F}' || c == '\U{205F}'
    || c == '\U{3000}' || c == '\U{FEFF}'
  }

  predicate IsUpper(c: char) {
    'A' <= c <= 'Z'
  }

  /** Lower-casing of one character (ASCII letters only). */
  function ToLower(c: char): (d: char)
    ensures !IsUpper(d)
    ensures IsWhitespace(d) <==> IsWhitespace(c)
    ensures !IsUpper(c) ==> d == c
  {
    if IsUpper(c) then (c as int + ('a' as int - 'A' as int)) as char else c
  }

  /** `toLowerCase()`: the same string, letter for letter, with no upper-case letter left. */
  function LowerCase(s: string): (r: string)
    ensures |r| == |s|
    ensures forall k | 0 <= k < |s| :: r[k] == ToLower(s[k])
    ensures forall k | 0 <= k < |r| :: !IsUpper(r[k])
  {
    seq(|s|, k requires 0 <= k < |s| => ToLower(s[k]))
  }

  predicate AllWhitespace(t: string) {
    forall k | 0 <= k < |t| :: IsWhitespace(t[k])
  }

  /** True when `t` neither starts nor ends with white space. */
  predicate IsTrimmed(t: string) {
    t == [] || (!IsWhitespace(t[0]) && !IsWhitespace(t[|t| - 1]))
  }

  /** Where the text of `s` starts when the white space from position `i` on is skipped. */
  function SkipLeading(s: string, i: nat): (j: nat)
    requires i <= |s|
    ensures i <= j <= |s|
    ensures forall k | i <= k < j :: IsWhitespace(s[k])
    ensures j == |s| || !IsWhitespace(s[j])
    decreases |s| - i
  {
    if i < |s| && IsWhitespace(s[i]) then SkipLeading(s, i + 1) else i
  }

  /** Where the text of `s` ends when the white space before position `j`, down to `lo`, is skipped. */
  function SkipTrailing(s: string, lo: nat, j: nat): (e: nat)
    requires lo <= j <= |s|
    ensures lo <= e <= j
    ensures forall k | e <= k < j :: IsWhitespace(s[k])
    ensures e == lo || !IsWhitespace(s[e - 1])
    decreases j
  {
    if lo < j && IsWhitespace(s[j - 1]) then SkipTrailing(s, lo, j - 1) else j
  }

  /** How much white space `trim()` strips from the front of `s`. */
  function LeadingWhitespace(s: string): (n: nat)
    ensures n <= |s|
  {
    SkipLeading(s, 0)
  }

  /**
   * `trim()`: `s` with its white-space prefix and white-space suffix cut
   * off, leaving a slice of `s` that neither starts nor ends with white space.
   */
  function Trim(s: string): (r: string)
    ensures IsTrimmed(r)
    ensures LeadingWhitespace(s) + |r| <= |s|
    ensures r == s[LeadingWhitespace(s)..LeadingWhitespace(s) + |r|]
    ensures AllWhitespace(s[..LeadingWhitespace(s)])
    ensures AllWhitespace(s[LeadingWhitespace(s) + |r|..])
  {
    var a := SkipLeading(s, 0);
    var b := SkipTrailing(s, a, |s|);
    assert a < b ==> !IsWhitespace(s[a]);
    s[a..b]
  }

  /** The address as the service stores it: lower-cased, then trimmed. */
  function Normalize(raw: string): (email: string)
    ensures IsTrimmed(email)
  {
    Trim(LowerCase(raw))
  }

  /** A normalised address holds no upper-case letter. */
  lemma NormalizedHasNoUpper(raw: string)
    ensures forall k | 0 <= k < |Normalize(raw)| :: !IsUpper(Normalize(raw)[k])
  {
    var lower := LowerCase(raw);
    var i := LeadingWhitespace(lower);
    var email := Trim(lower);
    forall k | 0 <= k < |email| ensures !IsUpper(email[k]) {
      assert email[k] == lower[i + k];
    }
  }

  /** Trimming a string that is already trimmed changes nothing. */
  lemma TrimOfTrimmed(s: string)
    requires IsTrimmed(s)
    ensures Trim(s) == s
  {
    assert SkipLeading(s, 0) == 0;
    assert SkipTrailing(s, 0, |s|) == |s|;
  }

  /** Normalising twice is normalising once, so a stored address normalises to itself. */
  lemma NormalizeIdempotent(raw: string)
    ensures Normalize(Normalize(raw)) == Normalize(raw)
  {
    var email := Normalize(raw);
    NormalizedHasNoUpper(raw);
    assert LowerCase(email) == email;
    TrimOfTrimmed(email);
  }

  /** `[^\s@]`: a character that may appear inside the pattern's three runs. */
  predicate IsRunChar(c: char) {
    c != '@' && !IsWhitespace(c)
  }

  /** `[^\s@]+` */
  predicate IsRun(t: string) {
    |t| > 0 && forall k | 0 <= k < |t| :: IsRunChar(t[k])
  }

  /**
   * The language of `/^[^\s@]+@[^\s@]+\.[^\s@]+$/`: the whole string is a
   * run, an '@', a run, a '.', and a run.
   */
  ghost predicate MatchesEmailPattern(s: string) {
    exists at, dot | 0 <= at < dot < |s| ::
      && s[at] == '@' && s[dot] == '.'
      && IsRun(s[..at]) && IsRun(s[at + 1..dot]) && IsRun(s[dot + 1..])
  }

  /**
   * The address check: no white space, exactly one '@' and something before
   * it, and after it a '.' with something on both sides.
   */
  predicate IsValidEmail(s: string) {
    && (forall k | 0 <= k < |s| :: !IsWhitespace(s[k]))
    && var at := IndexOf(s, '@');
       && 0 < at
       && '@' !in s[at + 1..]
       && at + 2 < |s|
       && '.' in s[at + 2..|s| - 1]
  }

  /** Every address the check accepts splits into the pattern's five parts. */
  lemma ValidEmailMatchesPattern(s: string)
    requires IsValidEmail(s)
    ensures MatchesEmailPattern(s)
  {
    var at := IndexOf(s, '@');
    var tail := s[at + 1..];
    var j := IndexOf(s[at + 2..|s| - 1], '.');
    var dot := at + 2 + j;
    assert s[at + 2..|s| - 1][j] == s[dot];
    var local, host, tld := s[..at], s[at + 1..dot], s[dot + 1..];
    forall k | 0 <= k < |local| ensures IsRunChar(local[k]) {
      assert local[k] == s[k];
    }
    forall k | 0 <= k < |host| ensures IsRunChar(host[k]) {
      assert host[k] == tail[k] == s[at + 1 + k];
    }
    forall k | 0 <= k < |tld| ensures IsRunChar(tld[k]) {
      assert tld[k] == tail[dot - at + k] == s[dot + 1 + k];
    }
    assert IsRun(local) && IsRun(host) && IsRun(tld);
  }

  /** Every string the pattern matches passes the address check. */
  lemma PatternMatchIsValidEmail(s: string)
    requires MatchesEmailPattern(s)
    ensures IsValidEmail(s)
  {
    var at, dot :| 0 <= at < dot < |s| && s[at] == '@' && s[dot] == '.'
      && IsRun(s[..at]) && IsRun(s[at + 1..dot]) && IsRun(s[dot + 1..]);
    SplitIsValidEmail(s, at, dot);
  }

  lemma SplitIsValidEmail(s: string, at: nat, dot: nat)
    requires at < dot < |s| && s[at] == '@' && s[dot] == '.'
    requires IsRun(s[..at]) && IsRun(s[at + 1..dot]) && IsRun(s[dot + 1..])
    ensures IsValidEmail(s)
  {
    var local, host, tld := s[..at], s[at + 1..dot], s[dot + 1..];
    forall k | 0 <= k < |s| ensures IsRunChar(s[k]) || k == at || k == dot {
      if k < at {
        assert s[k] == local[k];
      } else if at < k < dot {
        assert s[k] == host[k - at - 1];
      } else if dot < k {
        assert s[k] == tld[k - dot - 1];
      }
    }
    assert forall k | 0 <= k < |s| :: !IsWhitespace(s[k]);
    assert '@' !in local by {
      forall k | 0 <= k < at ensures local[k] != '@' {
        assert IsRunChar(local[k]);
      }
    }
    assert IndexOf(s, '@') == at;
    var tail := s[at + 1..];
    assert '@' !in tail by {
      forall k | 0 <= k < |tail| ensures tail[k] != '@' {
        assert tail[k] == s[at + 1 + k];
        assert IsRunChar(s[at + 1 + k]) || at + 1 + k == dot;
      }
    }
    assert s[at + 2..|s| - 1][dot - at - 2] == '.';
  }

  /** The address check accepts exactly the strings the regular expression matches. */
  lemma ValidEmailIffPattern(s: string)
    ensures IsValidEmail(s) <==> MatchesEmailPattern(s)
  {
    if IsValidEmail(s) {
      ValidEmailMatchesPattern(s);
    }
    if MatchesEmailPattern(s) {
      PatternMatchIsValidEmail(s);
    }
  }

  /** The malformed inputs the service must turn away. */
  lemma MalformedAddressesRejected()
    ensures !IsValidEmail("") && !IsValidEmail("foo") && !IsValidEmail("foo@")
    ensures !IsValidEmail("@bar.com") && !IsValidEmail("a@@x.com") && !IsValidEmail("a b@x.com")
  {
    assert IndexOf("foo@", '@') == 3;
    assert IndexOf("@bar.com", '@') == 0;
    assert IndexOf("a@@x.com", '@') == 1 && "a@@x.com"[2..][0] == '@';
    assert IsWhitespace("a b@x.com"[1]);
  }

  /** Well-formed addresses, including one whose domain holds several dots, are accepted. */
  lemma WellFormedAddressesAccepted()
    ensures IsValidEmail("a@x.com") && IsValidEmail("a@b.c.d")
  {
    SplitIsValidEmail("a@x.com", 1, 3);
    SubdomainAddressAccepted();
  }

  /** An address whose domain holds several dots is accepted. */
  lemma SubdomainAddressAccepted()
    ensures IsValidEmail("a@b.c.d")
  {
    SplitIsValidEmail("a@b.c.d", 1, 5);
  }
}
