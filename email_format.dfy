/** The e-mail pattern `/^[^\s@]+@[^\s@]+\.[^\s@]+$/` that both the signup
    controller and the welcome-mail sender test addresses against. */
module EmailFormat {
  import opened JsText

  /** A character of the class `[^\s@]`. */
  predicate PlainChar(c: char)
  {
    !IsWhitespace(c) && c != '@'
  }

  predicate AllPlain(s: string)
  {
    forall k :: 0 <= k < |s| ==> PlainChar(s[k])
  }

  /** The language of the pattern: three non-empty runs of `[^\s@]` characters
      around an `@` and a `.`, covering the whole string. Because `.` is itself
      a plain character, any dot after the `@` can play the role of `\.`. */
  ghost predicate MatchesEmailPattern(s: string)
  {
    exists i, j :: 0 < i && i + 1 < j && j + 1 < |s| && s[i] == '@' && s[j] == '.'
      && AllPlain(s[..i]) && AllPlain(s[i + 1..j]) && AllPlain(s[j + 1..])
  }

  /** The domain part has a dot with at least one character before and after it. */
  predicate HasInnerDot(d: string)
  {
    exists j :: 0 < j < |d| - 1 && d[j] == '.'
  }

  predicate AtFree(s: string)
  {
    '@' !in s
  }

  /** The test the code performs, stated field by field: no white space, a
      single `@` with a non-empty local part before it, and a domain after it
      that has a dot with text on both sides. */
  predicate IsEmailFormat(s: string)
  {
    && NoWhitespace(s)
    && exists i :: 0 < i < |s| && s[i] == '@' && AtFree(s[..i]) && AtFree(s[i + 1..]) && HasInnerDot(s[i + 1..])
  }

  /** The field-by-field test accepts exactly the strings the pattern matches. */
  lemma EmailFormatMatchesPattern(s: string)
    ensures IsEmailFormat(s) <==> MatchesEmailPattern(s)
  {
    if MatchesEmailPattern(s) {
      PatternImpliesFormat(s);
    }
    if IsEmailFormat(s) {
      FormatImpliesPattern(s);
    }
  }

  lemma PatternImpliesFormat(s: string)
    requires MatchesEmailPattern(s)
    ensures IsEmailFormat(s)
  {
    var i, j :| 0 < i && i + 1 < j && j + 1 < |s| && s[i] == '@' && s[j] == '.'
      && AllPlain(s[..i]) && AllPlain(s[i + 1..j]) && AllPlain(s[j + 1..]);
    var local, host, tld := s[..i], s[i + 1..j], s[j + 1..];
    var d := s[i + 1..];
    forall k | 0 <= k < |d|
      ensures PlainChar(d[k])
    {
      if k < j - i - 1 {
        assert d[k] == host[k];
      } else if k > j - i - 1 {
        assert d[k] == tld[k - (j - i)];
      }
    }
    assert NoWhitespace(s) by {
      forall k | 0 <= k < |s| ensures !IsWhitespace(s[k]) {
        if k < i {
          assert s[k] == local[k];
        } else if k > i {
          assert s[k] == d[k - i - 1];
        }
      }
    }
    assert AtFree(local) by {
      forall k | 0 <= k < |local| ensures local[k] != '@' {
        assert PlainChar(local[k]);
      }
    }
    assert AtFree(d) by {
      forall k | 0 <= k < |d| ensures d[k] != '@' {
        assert PlainChar(d[k]);
      }
    }
    assert d[j - i - 1] == '.';
    assert HasInnerDot(d);
  }

  lemma FormatImpliesPattern(s: string)
    requires IsEmailFormat(s)
    ensures MatchesEmailPattern(s)
  {
    var i :| 0 < i < |s| && s[i] == '@' && AtFree(s[..i]) && AtFree(s[i + 1..]) && HasInnerDot(s[i + 1..]);
    var d := s[i + 1..];
    var jd :| 0 < jd < |d| - 1 && d[jd] == '.';
    var j := i + 1 + jd;
    assert s[j] == d[jd];
    var local, host, tld := s[..i], s[i + 1..j], s[j + 1..];
    assert local == s[0..i] && tld == s[j + 1..|s|];
    AtFreeSpan(s, 0, i);
    PlainSpan(s, 0, i);
    AtFreeSpan(s, i + 1, |s|);
    PlainSpan(s, i + 1, j);
    PlainSpan(s, j + 1, |s|);
    assert 0 < i && i + 1 < j && j + 1 < |s| && s[i] == '@' && s[j] == '.'
      && AllPlain(local) && AllPlain(host) && AllPlain(tld);
  }

  /** An `@`-free slice has no `@` at any of its positions in the whole string. */
  lemma AtFreeSpan(s: string, a: nat, b: nat)
    requires a <= b <= |s| && AtFree(s[a..b])
    ensures forall k :: a <= k < b ==> s[k] != '@'
  {
    forall k | a <= k < b ensures s[k] != '@' {
      assert s[a..b][k - a] == s[k];
    }
  }

  /** A stretch of a white-space-free string that holds no `@` is plain. */
  lemma PlainSpan(s: string, a: nat, b: nat)
    requires a <= b <= |s| && NoWhitespace(s)
    requires forall k :: a <= k < b ==> s[k] != '@'
    ensures AllPlain(s[a..b])
  {
    forall k | 0 <= k < b - a ensures PlainChar(s[a..b][k]) {
      assert s[a..b][k] == s[a + k];
    }
  }
}
