/**
 * The e-mail address pattern `^[^\s@]+@[^\s@]+\.[^\s@]+$` shared by both
 * contact-form scripts, once as the regular expression means it and once as a
 * direct test, with a proof that the two agree on every string.
 */
module EmailPattern {
  import opened Text

  /** A character of the class `[^\s@]`. */
  predicate IsAddressChar(c: char) {
    c != '@' && !IsSpace(c)
  }

  /** A string made only of `[^\s@]` characters (possibly empty). */
  predicate AddressChars(s: string) {
    forall k | 0 <= k < |s| :: IsAddressChar(s[k])
  }

  /**
   * The regular expression read literally: `s` splits as A + "@" + B + "." + C
   * where A, B and C are non-empty runs of `[^\s@]`. The '@' sits at `at`, the
   * separating '.' at `dot`.
   */
  ghost predicate MatchesEmailRegex(s: string) {
    exists at, dot | 0 < at && at + 1 < dot && dot + 1 < |s| ::
      && s[at] == '@' && s[dot] == '.'
      && AddressChars(s[..at]) && AddressChars(s[at + 1..dot]) && AddressChars(s[dot + 1..])
  }

  /** The position of the first '@' in `s`, or `|s|` when there is none. */
  function IndexOfAt(s: string): (k: nat)
    ensures k <= |s|
    ensures k < |s| ==> s[k] == '@'
    ensures forall m | 0 <= m < k :: s[m] != '@'
  {
    if s == [] || s[0] == '@' then 0 else 1 + IndexOfAt(s[1..])
  }

  /** The domain part: no whitespace or '@', and a '.' with a character on each side. */
  predicate IsDomain(d: string) {
    AddressChars(d) && |d| >= 3 && '.' in d[1..|d| - 1]
  }

  /**
   * The direct test: a non-empty local part before the first '@', made of
   * `[^\s@]`, followed by a domain part.
   */
  predicate IsEmail(s: string) {
    var at := IndexOfAt(s);
    0 < at < |s| && AddressChars(s[..at]) && IsDomain(s[at + 1..])
  }

  lemma AddressCharsSlice(s: string, lo: nat, hi: nat)
    requires AddressChars(s) && lo <= hi <= |s|
    ensures AddressChars(s[lo..hi])
  {
    forall k | 0 <= k < hi - lo ensures IsAddressChar(s[lo..hi][k]) {
      assert s[lo..hi][k] == s[lo + k];
    }
  }

  lemma EmailTestSound(s: string)
    requires IsEmail(s)
    ensures MatchesEmailRegex(s)
  {
    var at := IndexOfAt(s);
    var d := s[at + 1..];
    var m :| 0 <= m < |d[1..|d| - 1]| && d[1..|d| - 1][m] == '.';
    var dot := at + 2 + m;
    assert s[dot] == '.';
    assert s[at + 1..dot] == d[..m + 1];
    assert s[dot + 1..] == d[m + 2..];
    AddressCharsSlice(d, 0, m + 1);
    AddressCharsSlice(d, m + 2, |d|);
  }

  lemma EmailTestComplete(s: string, at: nat, dot: nat)
    requires 0 < at && at + 1 < dot && dot + 1 < |s|
    requires s[at] == '@' && s[dot] == '.'
    requires AddressChars(s[..at]) && AddressChars(s[at + 1..dot]) && AddressChars(s[dot + 1..])
    ensures IsEmail(s)
  {
    forall m | 0 <= m < at ensures s[m] != '@' {
      assert s[..at][m] == s[m];
    }
    assert IndexOfAt(s) == at;
    var d := s[at + 1..];
    var j := dot - at - 1;
    forall k | 0 <= k < |d| ensures IsAddressChar(d[k]) {
      if k < j {
        assert d[k] == s[at + 1..dot][k];
      } else if k > j {
        assert d[k] == s[dot + 1..][k - j - 1];
      }
    }
    assert d[1..|d| - 1][j - 1] == '.';
  }

  /** The direct test accepts exactly the strings the regular expression matches. */
  lemma EmailTestMatchesRegex(s: string)
    ensures IsEmail(s) <==> MatchesEmailRegex(s)
  {
    if IsEmail(s) {
      EmailTestSound(s);
    }
    if MatchesEmailRegex(s) {
      var at, dot :| 0 < at && at + 1 < dot && dot + 1 < |s|
        && s[at] == '@' && s[dot] == '.'
        && AddressChars(s[..at]) && AddressChars(s[at + 1..dot]) && AddressChars(s[dot + 1..]);
      EmailTestComplete(s, at, dot);
    }
  }

  /** "a@b.co" is an address. */
  lemma AcceptsShortAddress()
    ensures MatchesEmailRegex("a@b.co")
  {
    var s := "a@b.co";
    assert s[2..4] == "b." && s[4..] == "co";
    EmailTestComplete(s, 1, 3);
  }

  /** "a@b" has no '.' in its domain. */
  lemma RejectsDotlessDomain()
    ensures !MatchesEmailRegex("a@b")
  {
    EmailTestMatchesRegex("a@b");
  }

  /** "@b.c" has an empty local part. */
  lemma RejectsEmptyLocalPart()
    ensures !MatchesEmailRegex("@b.c")
  {
    EmailTestMatchesRegex("@b.c");
    assert IndexOfAt("@b.c") == 0;
  }

  /** "a@.c" has nothing between '@' and '.'. */
  lemma RejectsEmptyDomainLabel()
    ensures !MatchesEmailRegex("a@.c")
  {
    var s := "a@.c";
    EmailTestMatchesRegex(s);
    assert IndexOfAt(s) == 1;
    assert s[2..][1..1] == [];
  }

  /** "a b@c.d" has a space in its local part. */
  lemma RejectsSpace()
    ensures !MatchesEmailRegex("a b@c.d")
  {
    var s := "a b@c.d";
    EmailTestMatchesRegex(s);
    assert IndexOfAt(s) == 3;
    assert s[..3][1] == ' ';
  }
}
