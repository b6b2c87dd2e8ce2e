/**
 * The e-mail address pattern /^[^\s@]+@[^\s@]+\.[^\s@]+$/ that both the
 * contact controller and the contact page test addresses against.
 *
 * MatchesEmailPattern is the pattern's language written as concatenation,
 * the way the regular expression reads; IsValidEmail is the same test stated
 * on positions; EmailPatternCharacterization proves the two agree.
 */
module EmailFormat {
  import opened JsStrings

  /** A character of the class [^\s@]. */
  predicate IsAddressChar(c: char) {
    !IsWhitespace(c) && c != '@'
  }

  /** A string matched by [^\s@]+. */
  ghost predicate IsAddressRun(s: string) {
    s != [] && forall i :: 0 <= i < |s| ==> IsAddressChar(s[i])
  }

  /** The language of the pattern: a run, '@', a run, '.', a run. Because the
      runs may themselves hold '.', the '.' is any one after the '@'. */
  ghost predicate MatchesEmailPattern(s: string) {
    exists local: string, domain: string, tld: string ::
      IsAddressRun(local) && IsAddressRun(domain) && IsAddressRun(tld) &&
      s == local + "@" + domain + "." + tld
  }

  /** No character of s is whitespace. */
  predicate HasNoWhitespace(s: string) {
    forall k :: 0 <= k < |s| ==> !IsWhitespace(s[k])
  }

  /** RegExp.prototype.test of the pattern, stated on positions: no
      whitespace; exactly one '@' (its first and last occurrence coincide),
      not at index 0; and a '.' at least two places after the '@' and before
      the last character. */
  predicate IsValidEmail(s: string)
    ensures IsValidEmail(s) ==> 5 <= |s| && s[0] != '@' && s[|s| - 1] != '@'
  {
    && s != []
    && HasNoWhitespace(s)
    && var at := IndexOf(s, '@');
       && at > 0
       && LastIndexOf(s, '@') == at
       && LastIndexOfFrom(s, '.', |s| - 2) >= at + 2
  }

  /** Every string the positional test accepts is in the pattern's language. */
  lemma ValidEmailMatchesPattern(s: string)
    requires IsValidEmail(s)
    ensures MatchesEmailPattern(s)
  {
    var at := IndexOf(s, '@');
    var dot := LastIndexOfFrom(s, '.', |s| - 2);
    var local, domain, tld := s[..at], s[at + 1..dot], s[dot + 1..];
    assert IsAddressRun(local);
    assert IsAddressRun(domain) by {
      forall i | 0 <= i < |domain| ensures IsAddressChar(domain[i]) {
        assert domain[i] == s[at + 1 + i];
      }
    }
    assert IsAddressRun(tld) by {
      forall i | 0 <= i < |tld| ensures IsAddressChar(tld[i]) {
        assert tld[i] == s[dot + 1 + i];
      }
    }
    assert s == local + "@" + domain + "." + tld;
  }

  /** Every string in the pattern's language passes the positional test. */
  lemma PatternMatchIsValidEmail(s: string)
    requires MatchesEmailPattern(s)
    ensures IsValidEmail(s)
  {
    var local: string, domain: string, tld: string :|
      IsAddressRun(local) && IsAddressRun(domain) && IsAddressRun(tld) &&
      s == local + "@" + domain + "." + tld;
    var at := |local|;
    var dot := |local| + 1 + |domain|;
    forall k | 0 <= k < |s| ensures !IsWhitespace(s[k]) && (k != at && k != dot ==> s[k] != '@') {
      if k < at {
        assert s[k] == local[k];
      } else if at < k < dot {
        assert s[k] == domain[k - at - 1];
      } else if dot < k {
        assert s[k] == tld[k - dot - 1];
      }
    }
    assert s[at] == '@' && s[dot] == '.';
    assert IndexOf(s, '@') == at;
    LastIndexOfIs(s, '@', at);
    assert LastIndexOfFrom(s, '.', |s| - 2) >= dot;
  }

  /** The positional test accepts exactly the strings in the pattern's language. */
  lemma EmailPatternCharacterization(s: string)
    ensures IsValidEmail(s) <==> MatchesEmailPattern(s)
  {
    if IsValidEmail(s) {
      ValidEmailMatchesPattern(s);
    }
    if MatchesEmailPattern(s) {
      PatternMatchIsValidEmail(s);
    }
  }
}
