/** ReservedWordsValidator.java: a custom code may not be a reserved word, nor
    a path below one, compared without regard to letter case. */
module ReservedWordsValidator {
  import opened Basics
  import opened JavaLang
  import opened Exceptions
  import Dto

  /** The test inside the loop: after lower-casing both, the code equals the
      word or starts with the word followed by '/'. */
  predicate Matches(shortUrl: string, reservedWord: string)
  {
    var lowerCaseShortUrl := ToLowerCase(shortUrl);
    var lowerReserved := ToLowerCase(reservedWord);
    lowerCaseShortUrl == lowerReserved || StartsWith(lowerCaseShortUrl, lowerReserved + "/")
  }

  /** Some reserved word matches the code. */
  predicate IsReserved(reservedWords: set<string>, shortUrl: string)
  {
    exists w :: w in reservedWords && Matches(shortUrl, w)
  }

  /** validate: None when the code may be used, otherwise the exception thrown.
      A null code is never rejected, an empty set rejects nothing, and the
      message quotes the code as given, not lower-cased. */
  function Validate(reservedWords: set<string>, shortUrl: Option<string>): (r: Option<LinkError>)
    ensures shortUrl.None? ==> r.None?
    ensures reservedWords == {} ==> r.None?
    ensures r.Some? <==> shortUrl.Some? && IsReserved(reservedWords, shortUrl.value)
    ensures r.Some? ==> r == Some(ReservedShortUrl(ReservedShortUrlMessage(shortUrl.value)))
  {
    match shortUrl
    case None => None
    case Some(code) =>
      if IsReserved(reservedWords, code) then Some(ReservedShortUrl(ReservedShortUrlMessage(code))) else None
  }

  /** The Java loop itself: the reserved words in the set's iteration order,
      stopping at the first match. */
  function FirstMatch(order: seq<string>, shortUrl: string): (r: Option<string>)
    ensures r.Some? ==> r.value in order && Matches(shortUrl, r.value)
  {
    if order == [] then None
    else if Matches(shortUrl, order[0]) then Some(order[0])
    else FirstMatch(order[1..], shortUrl)
  }

  /** The loop finds a match exactly when some word in the order matches. */
  lemma {:induction false} FirstMatchFindsAny(order: seq<string>, shortUrl: string)
    ensures FirstMatch(order, shortUrl).Some? <==> exists w :: w in order && Matches(shortUrl, w)
  {
    if order != [] && !Matches(shortUrl, order[0]) {
      FirstMatchFindsAny(order[1..], shortUrl);
      assert forall w :: w in order && w != order[0] ==> w in order[1..];
    }
  }

  /** Whatever order the set is iterated in, the loop throws exactly when
      Validate rejects: the outcome does not depend on iteration order. */
  lemma IterationOrderIrrelevant(reservedWords: set<string>, order: seq<string>, shortUrl: string)
    requires forall w :: w in order <==> w in reservedWords
    ensures FirstMatch(order, shortUrl).Some? <==> Validate(reservedWords, Some(shortUrl)).Some?
  {
    FirstMatchFindsAny(order, shortUrl);
  }

  lemma ToLowerCaseIdempotent(s: string)
    ensures ToLowerCase(ToLowerCase(s)) == ToLowerCase(s)
  {
  }

  /** One match test ignores the case of either side. */
  lemma MatchesIgnoresCase(shortUrl: string, reservedWord: string)
    ensures Matches(shortUrl, reservedWord) <==> Matches(ToLowerCase(shortUrl), reservedWord)
    ensures Matches(shortUrl, reservedWord) <==> Matches(shortUrl, ToLowerCase(reservedWord))
  {
    ToLowerCaseIdempotent(shortUrl);
    ToLowerCaseIdempotent(reservedWord);
  }

  /** Letter case plays no part: neither the code's nor the reserved words'. */
  lemma ValidateIgnoresCase(reservedWords: set<string>, shortUrl: string)
    ensures Validate(reservedWords, Some(shortUrl)).Some? <==> Validate(reservedWords, Some(ToLowerCase(shortUrl))).Some?
    ensures Validate(reservedWords, Some(shortUrl)).Some?
            <==> Validate(LowerCased(reservedWords), Some(shortUrl)).Some?
  {
    var lower := ToLowerCase(shortUrl);
    if IsReserved(reservedWords, shortUrl) {
      var w :| w in reservedWords && Matches(shortUrl, w);
      MatchesIgnoresCase(shortUrl, w);
      assert Matches(lower, w);
      assert ToLowerCase(w) in LowerCased(reservedWords);
      assert Matches(shortUrl, ToLowerCase(w));
    }
    if IsReserved(reservedWords, lower) {
      var w :| w in reservedWords && Matches(lower, w);
      MatchesIgnoresCase(shortUrl, w);
      assert Matches(shortUrl, w);
    }
    if IsReserved(LowerCased(reservedWords), shortUrl) {
      var lw :| lw in LowerCased(reservedWords) && Matches(shortUrl, lw);
      var w :| w in reservedWords && ToLowerCase(w) == lw;
      MatchesIgnoresCase(shortUrl, w);
      assert Matches(shortUrl, w);
    }
  }

  /** The reserved words, lower-cased. */
  function LowerCased(words: set<string>): set<string>
  {
    set w | w in words :: ToLowerCase(w)
  }

  /** A reserved word itself is rejected, and so is every path below it. */
  lemma ReservedWordAndPathsRejected(reservedWords: set<string>, word: string, rest: string)
    requires word in reservedWords
    ensures Validate(reservedWords, Some(word)).Some?
    ensures Validate(reservedWords, Some(word + "/" + rest)).Some?
  {
    assert Matches(word, word);
    ToLowerCaseConcat(word + "/", rest);
    ToLowerCaseConcat(word, "/");
    var lw := ToLowerCase(word);
    assert ToLowerCase("/") == "/";
    assert ToLowerCase(word + "/" + rest) == (lw + "/") + ToLowerCase(rest);
    assert (lw + "/" + ToLowerCase(rest))[..|lw + "/"|] == lw + "/";
    assert Matches(word + "/" + rest, word);
  }

  /** Starting with a reserved word is not enough: a code that continues the
      word with anything but '/' is free as far as that word goes (so
      "dashboards" may be used while "dashboard" is reserved). */
  lemma ExtensionWithoutSlashAccepted(reservedWord: string, tail: string)
    requires |tail| > 0 && tail[0] != '/'
    ensures Validate({reservedWord}, Some(reservedWord + tail)).None?
  {
    var lw := ToLowerCase(reservedWord);
    ToLowerCaseConcat(reservedWord, tail);
    SlashAfterPrefix(ToLowerCase(reservedWord + tail), lw);
    assert ToLowerCase(reservedWord + tail)[|lw|] == LowerChar(tail[0]);
  }

  /** A code that passes the request's shortUrl pattern has no '/', so only
      equality with a reserved word, ignoring case, can reject it. */
  lemma PatternCodesRejectedOnlyByEquality(reservedWords: set<string>, shortUrl: string)
    requires Dto.MatchesShortUrlPattern(Some(shortUrl))
    ensures Validate(reservedWords, Some(shortUrl)).Some?
            <==> exists w :: w in reservedWords && ToLowerCase(w) == ToLowerCase(shortUrl)
  {
    var lower := ToLowerCase(shortUrl);
    assert forall i :: 0 <= i < |lower| ==> lower[i] != '/' by {
      Dto.PatternExcludesSlashAndWhitespace(shortUrl);
    }
    forall w | w in reservedWords
      ensures Matches(shortUrl, w) ==> ToLowerCase(w) == lower
    {
      SlashAfterPrefix(lower, ToLowerCase(w));
    }
  }

  lemma SlashAfterPrefix(s: string, prefix: string)
    ensures StartsWith(s, prefix + "/") ==> |prefix| < |s| && s[|prefix|] == '/'
  {
    if StartsWith(s, prefix + "/") {
      assert s[..|prefix| + 1][|prefix|] == s[|prefix|];
    }
  }
}
