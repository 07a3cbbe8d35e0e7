/** UrlSanitizer.java: give a URL an explicit scheme. */
module UrlSanitizer {
  import opened Basics
  import opened JavaLang

  const HTTP_PREFIX: string := "http://"
  const HTTPS_PREFIX: string := "https://"

  predicate HasScheme(url: string)
  {
    StartsWith(url, HTTP_PREFIX) || StartsWith(url, HTTPS_PREFIX)
  }

  /** url.matches("^(http|https)://.*"): the whole string must match, the
      alternatives are case-sensitive, and '.' does not match a line terminator. */
  predicate MatchesSchemePattern(url: string)
  {
    || (StartsWith(url, HTTP_PREFIX) && !HasLineTerminator(url[|HTTP_PREFIX|..]))
    || (StartsWith(url, HTTPS_PREFIX) && !HasLineTerminator(url[|HTTPS_PREFIX|..]))
  }

  /** The pattern holds exactly of a URL that starts with a scheme and has no
      line terminator anywhere. */
  lemma MatchesSchemePatternIff(url: string)
    ensures MatchesSchemePattern(url) <==> HasScheme(url) && !HasLineTerminator(url)
  {
    if StartsWith(url, HTTP_PREFIX) {
      assert url == url[..7] + url[7..];
      assert forall i :: 0 <= i < 7 ==> !IsLineTerminator(url[i]);
      assert HasLineTerminator(url) ==> HasLineTerminator(url[7..]) by {
        if HasLineTerminator(url) {
          var i :| 0 <= i < |url| && IsLineTerminator(url[i]);
          assert url[7..][i - 7] == url[i];
        }
      }
    }
    if StartsWith(url, HTTPS_PREFIX) {
      assert forall i :: 0 <= i < 8 ==> !IsLineTerminator(url[i]);
      assert HasLineTerminator(url) ==> HasLineTerminator(url[8..]) by {
        if HasLineTerminator(url) {
          var i :| 0 <= i < |url| && IsLineTerminator(url[i]);
          assert url[8..][i - 8] == url[i];
        }
      }
    }
  }

  /** prependProtocolIfMissing: null stays null; a URL the pattern accepts is
      returned as it is; anything else gets "https://" in front. */
  function PrependProtocolIfMissing(url: Option<string>): (r: Option<string>)
    ensures r.None? <==> url.None?
    ensures r.Some? ==> HasScheme(r.value)
    ensures r.Some? ==> r.value == url.value || r.value == HTTPS_PREFIX + url.value
    ensures r.Some? ==> (r == url <==> MatchesSchemePattern(url.value))
  {
    match url
    case None => None
    case Some(u) =>
      if MatchesSchemePattern(u) then url
      else
        assert StartsWith(HTTPS_PREFIX + u, HTTPS_PREFIX);
        Some(HTTPS_PREFIX + u)
  }

  /** Sanitising twice is the same as sanitising once exactly when the URL has
      no line terminator; with one, every application prepends another scheme. */
  lemma PrependProtocolIdempotentIff(u: string)
    ensures PrependProtocolIfMissing(PrependProtocolIfMissing(Some(u))) == PrependProtocolIfMissing(Some(u))
            <==> !HasLineTerminator(u)
  {
    var once := PrependProtocolIfMissing(Some(u)).value;
    MatchesSchemePatternIff(u);
    MatchesSchemePatternIff(once);
    assert HasLineTerminator(once) <==> HasLineTerminator(u) by {
      if once != u {
        assert once == HTTPS_PREFIX + u;
        if HasLineTerminator(u) {
          var i :| 0 <= i < |u| && IsLineTerminator(u[i]);
          assert once[i + 8] == u[i];
        }
        if HasLineTerminator(once) {
          var i :| 0 <= i < |once| && IsLineTerminator(once[i]);
          assert i >= 8;
          assert u[i - 8] == once[i];
        }
      }
    }
  }

  /** A URL whose first character is not 'h' is not a scheme match. */
  lemma NoSchemeUnlessLowercaseH(u: string)
    requires |u| > 0 && u[0] != 'h'
    ensures PrependProtocolIfMissing(Some(u)) == Some(HTTPS_PREFIX + u)
  {
    assert !StartsWith(u, HTTP_PREFIX) by {
      if |u| >= 7 { assert u[..7][0] == u[0]; }
    }
    assert !StartsWith(u, HTTPS_PREFIX) by {
      if |u| >= 8 { assert u[..8][0] == u[0]; }
    }
  }

  /** The scheme test is case-sensitive and knows only http and https. */
  lemma OtherSchemesGetHttpsPrepended()
    ensures PrependProtocolIfMissing(Some("HTTP://x")) == Some(HTTPS_PREFIX + "HTTP://x")
    ensures PrependProtocolIfMissing(Some("ftp://x")) == Some(HTTPS_PREFIX + "ftp://x")
    ensures PrependProtocolIfMissing(Some("example.com/x")) == Some(HTTPS_PREFIX + "example.com/x")
  {
    NoSchemeUnlessLowercaseH("HTTP://x");
    NoSchemeUnlessLowercaseH("ftp://x");
    NoSchemeUnlessLowercaseH("example.com/x");
  }
}
