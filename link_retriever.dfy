/** LinkRetriever.java: the owner-scoped read of one link. */
module LinkRetriever {
  import opened Basics
  import opened Exceptions
  import opened LinkModel
  import opened Dto
  import opened LinkMapper
  import opened JdbcLinkRepository

  /** getLink: the DTO of the link when both the id and the owner match, and
      LinkNotFoundException otherwise, the same for a missing id and for
      another user's link. It only reads the table. */
  function GetLink(table: LinkTable, userId: string, linkId: int): (r: Result<LinkDto, LinkError>)
    reads table
    ensures r.Ok? <==> linkId in table.rows && table.rows[linkId].userId == userId
    ensures r.Ok? ==> r.value == ToLinkDto(table.rows[linkId])
    ensures r.Err? ==> r.error == LinkNotFound(NOT_FOUND_MESSAGE)
  {
    match table.FindByIdAndUserId(linkId, userId)
    case Some(link) => Ok(ToLinkDto(link))
    case None => Err(LinkNotFound(NOT_FOUND_MESSAGE))
  }

  /** On a valid table the DTO returned names the requested id, so a caller
      cannot be handed some other row. */
  lemma GetLinkReturnsRequestedId(table: LinkTable, userId: string, linkId: int)
    requires table.Valid()
    requires GetLink(table, userId, linkId).Ok?
    ensures GetLink(table, userId, linkId).value.id == JavaLang.LongToString(linkId)
  {
  }
}
