/** The request and response records of the API layer that the link core
    consumes and produces, with the declarative constraints of CreateLinkRequest. */
module Dto {
  import opened Basics
  import opened JavaLang

  datatype CreateLinkResponse = CreateLinkResponse(shortUrl: string, longUrl: string)

  datatype LinkDto = LinkDto(
    id: string,
    userId: string,
    shortUrl: string,
    longUrl: string,
    title: Option<string>,
    notes: Option<string>,
    isActive: bool,
    createdAt: Option<Instant>,
    updatedAt: Option<Instant>,
    expiresAt: Option<Instant>)

  /** A partial update: a None field means "keep the stored value". */
  datatype UpdateLinkRequest = UpdateLinkRequest(
    longUrl: Option<string>,
    isActive: Option<bool>,
    title: Option<string>)

  datatype CreateLinkRequest = CreateLinkRequest(
    longUrl: Option<string>,
    shortUrl: Option<string>,
    isActive: Option<bool>,
    title: Option<string>)
  {
    /** The overridden accessor: an absent flag means active. */
    function IsActive(): (r: bool)
      ensures isActive.None? ==> r
      ensures isActive.Some? ==> r == isActive.value
    {
      isActive.None? || isActive.value
    }
  }

  const MAX_LONG_URL_LENGTH: int := 1024
  const MAX_TITLE_LENGTH: int := 255

  /** String.trim() without its trailing half: drops the leading characters
      at or below U+0020. */
  function TrimStart(s: string): (t: string)
    ensures |t| <= |s| && t == s[|s| - |t|..]
    ensures t == [] || t[0] > ' '
    ensures forall i :: 0 <= i < |s| - |t| ==> s[i] <= ' '
  {
    if s != [] && s[0] <= ' ' then TrimStart(s[1..]) else s
  }

  /** String.trim() without its leading half: drops the trailing characters
      at or below U+0020. */
  function TrimEnd(s: string): (t: string)
    ensures |t| <= |s| && t == s[..|t|]
    ensures t == [] || t[|t| - 1] > ' '
    ensures forall i :: |t| <= i < |s| ==> s[i] <= ' '
  {
    if s != [] && s[|s| - 1] <= ' ' then TrimEnd(s[..|s| - 1]) else s
  }

  /** String.trim(): the string without its leading and trailing characters
      at or below U+0020. */
  function Trim(s: string): string
  {
    TrimEnd(TrimStart(s))
  }

  /** @NotBlank: present, and not empty after String.trim(). */
  predicate NotBlank(s: Option<string>)
  {
    s.Some? && Trim(s.value) != []
  }

  /** A string trims to nothing exactly when it has no character above
      U+0020, so @NotBlank asks for one such character. */
  lemma NotBlankIff(s: Option<string>)
    ensures NotBlank(s) <==> s.Some? && exists i :: 0 <= i < |s.value| && s.value[i] > ' '
  {
    if s.Some? {
      var v := s.value;
      var u := TrimStart(v);
      if Trim(v) != [] {
        assert u[0] > ' ' && u[0] == v[|v| - |u|];
      }
    }
  }

  /** @Size(max = n): an absent value passes. */
  predicate SizeAtMost(s: Option<string>, n: int)
  {
    s.None? || |s.value| <= n
  }

  predicate IsShortUrlChar(c: char)
  {
    ('a' <= c <= 'z') || ('A' <= c <= 'Z') || ('0' <= c <= '9') || c == '-' || c == '_'
  }

  /** @Pattern("^$|^[a-zA-Z0-9-_]+$"): absent, empty, or letters, digits, '-' and '_' only. */
  predicate MatchesShortUrlPattern(s: Option<string>)
  {
    s.None? || forall i :: 0 <= i < |s.value| ==> IsShortUrlChar(s.value[i])
  }

  /** All the bean-validation constraints of CreateLinkRequest except @ValidUrl. */
  predicate IsValid(request: CreateLinkRequest)
  {
    && NotBlank(request.longUrl)
    && SizeAtMost(request.longUrl, MAX_LONG_URL_LENGTH)
    && MatchesShortUrlPattern(request.shortUrl)
    && SizeAtMost(request.title, MAX_TITLE_LENGTH)
  }

  /** A code that passes the pattern has neither a slash nor white space in it. */
  lemma PatternExcludesSlashAndWhitespace(s: string)
    requires MatchesShortUrlPattern(Some(s))
    ensures forall i :: 0 <= i < |s| ==> s[i] != '/' && !IsWhitespace(s[i])
  {
  }
}
