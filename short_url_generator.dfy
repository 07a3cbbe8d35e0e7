/** ShortUrlGenerator.java: a code of fixed length drawn from a 58-character
    alphabet that leaves out the look-alike characters '0', 'O', 'l' and 'I'.
    SecureRandom becomes a sequence of drawn indices, each in [0, 58). */
module ShortUrlGenerator {
  import opened Basics
  import opened JavaLang
  import opened Exceptions
  import Dto

  /** The alphabet's three runs: lower case without 'l', upper case without
      'I' and 'O', and the digits without '0'. */
  const LOWER_RUN: string := "abcdefghijkmnopqrstuvwxyz"
  const UPPER_RUN: string := "ABCDEFGHJKLMNPQRSTUVWXYZ"
  const DIGIT_RUN: string := "123456789"

  /** ALPHANUMERIC_CHARS, assembled from its runs (AlphabetLiteral checks the
      characters against the literal of the source). */
  const ALPHANUMERIC_CHARS: string := LOWER_RUN + UPPER_RUN + DIGIT_RUN

  lemma AlphabetLiteral()
    ensures ALPHANUMERIC_CHARS == "abcdefghijkmnopqrstuvwxyzABCDEFGHJKLMNPQRSTUVWXYZ123456789"
  {
    assert LOWER_RUN + UPPER_RUN == "abcdefghijkmnopqrstuvwxyzABCDEFGHJKLMNPQRSTUVWXYZ";
  }

  /** Membership in the alphabet, stated by character ranges. */
  predicate IsAlphabetChar(c: char)
  {
    || ('a' <= c <= 'z' && c != 'l')
    || ('A' <= c <= 'Z' && c != 'I' && c != 'O')
    || ('1' <= c <= '9')
  }

  /** The position of an alphabet character in ALPHANUMERIC_CHARS. */
  function IndexOf(c: char): (k: int)
    requires IsAlphabetChar(c)
    ensures 0 <= k < 58
  {
    if 'a' <= c <= 'z' then
      (c as int - 'a' as int) - (if c > 'l' then 1 else 0)
    else if 'A' <= c <= 'Z' then
      25 + (c as int - 'A' as int) - (if c > 'I' then 1 else 0) - (if c > 'O' then 1 else 0)
    else
      49 + (c as int - '1' as int)
  }

  /** Each run, position by position: consecutive code points with the
      left-out characters skipped. */
  lemma LowerRunAt()
    ensures |LOWER_RUN| == 25
    ensures forall i :: 0 <= i < 25 ==> LOWER_RUN[i] as int == 'a' as int + i + (if i >= 11 then 1 else 0)
  {
  }

  lemma UpperRunAt()
    ensures |UPPER_RUN| == 24
    ensures forall i :: 0 <= i < 24 ==>
      UPPER_RUN[i] as int == 'A' as int + i + (if i >= 8 then 1 else 0) + (if i >= 13 then 1 else 0)
  {
  }

  lemma DigitRunAt()
    ensures |DIGIT_RUN| == 9
    ensures forall i :: 0 <= i < 9 ==> DIGIT_RUN[i] as int == '1' as int + i
  {
  }

  /** The alphabet has 58 characters, every one in the ranges above, and
      IndexOf finds each of them at its own position. */
  lemma AlphabetIndex()
    ensures |ALPHANUMERIC_CHARS| == 58
    ensures forall i :: 0 <= i < 58 ==> IsAlphabetChar(ALPHANUMERIC_CHARS[i]) && IndexOf(ALPHANUMERIC_CHARS[i]) == i
  {
    LowerRunAt();
    UpperRunAt();
    DigitRunAt();
    forall i | 0 <= i < 58
      ensures IsAlphabetChar(ALPHANUMERIC_CHARS[i]) && IndexOf(ALPHANUMERIC_CHARS[i]) == i
    {
      if i < 25 {
        assert ALPHANUMERIC_CHARS[i] == LOWER_RUN[i];
      } else if i < 49 {
        assert ALPHANUMERIC_CHARS[i] == UPPER_RUN[i - 25];
      } else {
        assert ALPHANUMERIC_CHARS[i] == DIGIT_RUN[i - 49];
      }
    }
  }

  /** Conversely, every character in the ranges is found at IndexOf. */
  lemma IndexOfFinds(c: char)
    requires IsAlphabetChar(c)
    ensures ALPHANUMERIC_CHARS[IndexOf(c)] == c
  {
    LowerRunAt();
    UpperRunAt();
    DigitRunAt();
    var k := IndexOf(c);
    if k < 25 {
      assert ALPHANUMERIC_CHARS[k] == LOWER_RUN[k];
    } else if k < 49 {
      assert ALPHANUMERIC_CHARS[k] == UPPER_RUN[k - 25];
    } else {
      assert ALPHANUMERIC_CHARS[k] == DIGIT_RUN[k - 49];
    }
  }

  /** A character is in the alphabet exactly when it lies in one of the ranges. */
  lemma AlphabetMembership(c: char)
    ensures c in ALPHANUMERIC_CHARS <==> IsAlphabetChar(c)
  {
    AlphabetIndex();
    if IsAlphabetChar(c) {
      IndexOfFinds(c);
    }
  }

  /** The 58 characters are pairwise distinct. */
  lemma AlphabetDistinct()
    ensures forall i, j :: 0 <= i < j < |ALPHANUMERIC_CHARS| ==> ALPHANUMERIC_CHARS[i] != ALPHANUMERIC_CHARS[j]
  {
    AlphabetIndex();
  }

  /** The look-alikes '0', 'O', 'l' and 'I' are left out; the digit '1' is kept. */
  lemma AlphabetLeavesOutLookalikes()
    ensures '0' !in ALPHANUMERIC_CHARS && 'O' !in ALPHANUMERIC_CHARS
    ensures 'l' !in ALPHANUMERIC_CHARS && 'I' !in ALPHANUMERIC_CHARS
    ensures '1' in ALPHANUMERIC_CHARS
  {
    AlphabetMembership('0');
    AlphabetMembership('O');
    AlphabetMembership('l');
    AlphabetMembership('I');
    AlphabetMembership('1');
  }

  /** What SecureRandom.nextInt(58) can return, one index per drawn character. */
  predicate ValidDraws(draws: seq<int>)
  {
    forall k :: 0 <= k < |draws| ==> 0 <= draws[k] < |ALPHANUMERIC_CHARS|
  }

  /** The code spelled by a sequence of draws. */
  function CodeFor(draws: seq<int>): (code: string)
    requires ValidDraws(draws)
    ensures |code| == |draws|
    ensures forall k :: 0 <= k < |draws| ==> code[k] == ALPHANUMERIC_CHARS[draws[k]] && IsAlphabetChar(code[k])
  {
    AlphabetIndex();
    seq(|draws|, k requires 0 <= k < |draws| => ALPHANUMERIC_CHARS[draws[k]])
  }

  /** generate(): StringBuilder(urlLength) refuses a negative capacity; otherwise
      the loop appends ALPHANUMERIC_CHARS[draw] for each of the first urlLength draws. */
  method Generate(urlLength: int, draws: seq<int>) returns (r: Result<string, LinkError>)
    requires ValidDraws(draws) && |draws| >= urlLength
    ensures r.Err? <==> urlLength < 0
    ensures r.Err? ==> r.error == NegativeArraySize
    ensures r.Ok? ==> |r.value| == urlLength
    ensures r.Ok? ==> forall k :: 0 <= k < urlLength ==> r.value[k] == ALPHANUMERIC_CHARS[draws[k]]
    ensures r.Ok? ==> r.value == CodeFor(draws[..urlLength])
  {
    if urlLength < 0 {
      return Err(NegativeArraySize);
    }
    var sb: string := [];
    var i := 0;
    while i < urlLength
      invariant 0 <= i <= urlLength
      invariant |sb| == i
      invariant forall k :: 0 <= k < i ==> sb[k] == ALPHANUMERIC_CHARS[draws[k]]
    {
      var randomIndex := draws[i];
      sb := sb + [ALPHANUMERIC_CHARS[randomIndex]];
      i := i + 1;
    }
    r := Ok(sb);
  }

  /** Every generated code is made of alphabet characters only, so it has no
      white space, none of the look-alikes, and passes the request's shortUrl pattern. */
  lemma GeneratedCodeShape(draws: seq<int>)
    requires ValidDraws(draws)
    ensures |CodeFor(draws)| == |draws|
    ensures forall k :: 0 <= k < |draws| ==> IsAlphabetChar(CodeFor(draws)[k])
    ensures forall k :: 0 <= k < |draws| ==> !IsWhitespace(CodeFor(draws)[k])
    ensures '0' !in CodeFor(draws) && 'O' !in CodeFor(draws) && 'l' !in CodeFor(draws) && 'I' !in CodeFor(draws)
    ensures Dto.MatchesShortUrlPattern(Some(CodeFor(draws)))
  {
    AlphabetIndex();
  }

  /** The draws that spell a given code. */
  function DrawsFor(code: string): (draws: seq<int>)
    requires forall k :: 0 <= k < |code| ==> IsAlphabetChar(code[k])
    ensures |draws| == |code| && ValidDraws(draws)
  {
    seq(|code|, k requires 0 <= k < |code| => IndexOf(code[k]))
  }

  /** Every code over the alphabet can come out of the generator, from exactly
      one sequence of draws: CodeFor and DrawsFor are inverse to each other. */
  lemma CodeForDrawsForRoundTrip(code: string, draws: seq<int>)
    requires forall k :: 0 <= k < |code| ==> IsAlphabetChar(code[k])
    requires ValidDraws(draws)
    ensures CodeFor(DrawsFor(code)) == code
    ensures DrawsFor(CodeFor(draws)) == draws
  {
    AlphabetIndex();
    forall k | 0 <= k < |code|
      ensures CodeFor(DrawsFor(code))[k] == code[k]
    {
      IndexOfFinds(code[k]);
    }
  }
}
