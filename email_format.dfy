/** The e-mail format check `^[^\s@]+@[^\s@]+\.[^\s@]+$` that the checkout
    page and the user form share, as a decision procedure and as the shape
    the pattern describes, with a proof that the two agree. */
module EmailFormat {
  import opened Text

  /** `[^\s@]`: neither white space nor '@'. */
  predicate Plain(c: char) {
    !IsSpace(c) && c != '@'
  }

  predicate AllPlain(s: string) {
    forall k :: 0 <= k < |s| ==> Plain(s[k])
  }

  /** The strings the pattern matches: three non-empty runs of plain
      characters, joined by '@' and '.'. */
  ghost predicate MatchesPattern(s: string) {
    exists a: string, b: string, c: string ::
      && |a| >= 1 && |b| >= 1 && |c| >= 1
      && AllPlain(a) && AllPlain(b) && AllPlain(c)
      && s == a + "@" + b + "." + c
  }

  /** The test: one '@' with plain characters before it and after it, and
      after it a '.' that is neither the first nor the last character of
      the domain. */
  predicate IsValidEmail(s: string) {
    exists at :: 1 <= at < |s| && s[at] == '@' && AllPlain(s[..at]) && AllPlain(s[at + 1..])
                 && exists dot :: at + 2 <= dot < |s| - 1 && s[dot] == '.'
  }

  /** The test accepts exactly the strings the pattern matches. */
  lemma IsValidEmailMatchesPattern(s: string)
    ensures IsValidEmail(s) <==> MatchesPattern(s)
  {
    if IsValidEmail(s) {
      ValidEmailHasPattern(s);
    }
    if MatchesPattern(s) {
      PatternIsValidEmail(s);
    }
  }

  lemma ValidEmailHasPattern(s: string)
    requires IsValidEmail(s)
    ensures MatchesPattern(s)
  {
    var at :| 1 <= at < |s| && s[at] == '@' && AllPlain(s[..at]) && AllPlain(s[at + 1..])
              && exists dot :: at + 2 <= dot < |s| - 1 && s[dot] == '.';
    var dot :| at + 2 <= dot < |s| - 1 && s[dot] == '.';
    var a, b, c := s[..at], s[at + 1..dot], s[dot + 1..];
    assert AllPlain(b) by {
      forall k | 0 <= k < |b| ensures Plain(b[k]) { assert b[k] == s[at + 1..][k]; }
    }
    assert AllPlain(c) by {
      forall k | 0 <= k < |c| ensures Plain(c[k]) { assert c[k] == s[at + 1..][dot - at + k]; }
    }
    SplitAround(s, at, dot);
  }

  lemma SplitAround(s: string, at: int, dot: int)
    requires 0 <= at < dot < |s| && s[at] == '@' && s[dot] == '.'
    ensures s == s[..at] + "@" + s[at + 1..dot] + "." + s[dot + 1..]
  {
    assert s == s[..at] + [s[at]] + s[at + 1..dot] + [s[dot]] + s[dot + 1..];
  }

  lemma PatternIsValidEmail(s: string)
    requires MatchesPattern(s)
    ensures IsValidEmail(s)
  {
    var a: string, b: string, c: string :|
      && |a| >= 1 && |b| >= 1 && |c| >= 1
      && AllPlain(a) && AllPlain(b) && AllPlain(c)
      && s == a + "@" + b + "." + c;
    JoinedParts(a, b, c);
    PlainDomain(b, c);
    var at, dot := |a|, |a| + 1 + |b|;
    assert s[at + 1..][dot - at - 1] == '.';
  }

  /** Where the separators of `a@b.c` sit. */
  lemma JoinedParts(a: string, b: string, c: string)
    ensures var s := a + "@" + b + "." + c;
            && |s| == |a| + |b| + |c| + 2
            && s[|a|] == '@'
            && s[..|a|] == a
            && s[|a| + 1..] == b + "." + c
  {
    var s := a + "@" + b + "." + c;
    assert s == a + ("@" + b + "." + c);
  }

  /** A domain `b.c` with plain `b` and `c` has no white space and no '@'. */
  lemma PlainDomain(b: string, c: string)
    requires AllPlain(b) && AllPlain(c)
    ensures AllPlain(b + "." + c)
  {
    var d := b + "." + c;
    forall k | 0 <= k < |d| ensures Plain(d[k]) {
      if k < |b| { assert d[k] == b[k]; }
      else if k > |b| { assert d[k] == c[k - |b| - 1]; }
    }
  }

  /** What the pattern implies about the whole string: no white space, and
      exactly one '@'. */
  lemma ValidEmailShape(s: string)
    requires IsValidEmail(s)
    ensures forall k :: 0 <= k < |s| ==> !IsSpace(s[k])
    ensures exists at :: 0 < at < |s| - 1 && s[at] == '@' && forall k :: 0 <= k < |s| && k != at ==> s[k] != '@'
  {
    var at :| 1 <= at < |s| && s[at] == '@' && AllPlain(s[..at]) && AllPlain(s[at + 1..])
              && exists dot :: at + 2 <= dot < |s| - 1 && s[dot] == '.';
    forall k | 0 <= k < |s| && k != at ensures !IsSpace(s[k]) && s[k] != '@' {
      if k < at { assert s[k] == s[..at][k]; } else { assert s[k] == s[at + 1..][k - at - 1]; }
    }
  }
}
