/** LinkMapper.java: builds links from request fields and responses from links. */
module LinkMapper {
  import opened Basics
  import opened JavaLang
  import opened LinkModel
  import opened Dto

  /** toCreateLinkResponse: the public short URL is the configured base URL
      immediately followed by the code, with no separator added. */
  function ToCreateLinkResponse(baseLinkUrl: string, link: Link): (r: CreateLinkResponse)
    ensures r.longUrl == link.longUrl
    ensures |r.shortUrl| == |baseLinkUrl| + |link.shortUrl|
    ensures StartsWith(r.shortUrl, baseLinkUrl) && EndsWith(r.shortUrl, link.shortUrl)
  {
    CreateLinkResponse(baseLinkUrl + link.shortUrl, link.longUrl)
  }

  /** Under one base URL, links with different codes get different public short URLs. */
  lemma ResponseShortUrlsDistinct(baseLinkUrl: string, a: Link, b: Link)
    requires a.shortUrl != b.shortUrl
    ensures ToCreateLinkResponse(baseLinkUrl, a).shortUrl != ToCreateLinkResponse(baseLinkUrl, b).shortUrl
  {
  }

  /** toLink: a not-yet-saved link; the arguments land in their own columns
      (the long and short URL are not swapped) and id, notes and timestamps are unset. */
  function ToLink(userId: string, longUrl: string, shortUrl: string, isActive: bool,
                  isCustom: bool, title: Option<string>): (r: Link)
    ensures r.userId == userId && r.longUrl == longUrl && r.shortUrl == shortUrl
    ensures r.isActive == isActive && r.isCustom == isCustom && r.title == title
    ensures r.id.None? && r.notes.None?
    ensures r.createdAt.None? && r.updatedAt.None? && r.expiresAt.None?
  {
    Link(None, userId, shortUrl, longUrl, title, None, isActive, isCustom, None, None, None)
  }

  /** toLinkDto: every column but isCustom, the id rendered with String.valueOf. */
  function ToLinkDto(link: Link): (r: LinkDto)
    ensures r.id == ValueOf(link.id)
    ensures r.userId == link.userId && r.shortUrl == link.shortUrl && r.longUrl == link.longUrl
    ensures r.title == link.title && r.notes == link.notes && r.isActive == link.isActive
    ensures r.createdAt == link.createdAt && r.updatedAt == link.updatedAt && r.expiresAt == link.expiresAt
  {
    LinkDto(ValueOf(link.id), link.userId, link.shortUrl, link.longUrl, link.title, link.notes,
            link.isActive, link.createdAt, link.updatedAt, link.expiresAt)
  }

  /** The DTO determines the link's id: two DTOs with equal id text come from the same id. */
  lemma LinkDtoIdentifiesLink(a: Link, b: Link)
    requires ToLinkDto(a).id == ToLinkDto(b).id
    ensures a.id == b.id
  {
    ValueOfInjective(a.id, b.id);
  }
}
