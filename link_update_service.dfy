/** LinkUpdateService.java: the earlier update service. It merges the request
    into the stored link like LinkManipulationService, but stores a supplied
    long URL exactly as sent. */
module LinkUpdateService {
  import opened Basics
  import opened Exceptions
  import opened LinkModel
  import opened Dto
  import opened LinkMapper
  import opened UrlSanitizer
  import opened JdbcLinkRepository
  import opened ApplicationEvents
  import opened LinkLifecycleEvents
  import opened Transactions
  import LinkManipulationService

  /** The merged link: each of longUrl, title and isActive is replaced only
      when the request carries it, verbatim; updatedAt is the service's clock
      reading, and every other component is kept. */
  function MergeUpdate(existing: Link, request: UpdateLinkRequest, now: Instant): (r: Link)
    ensures r.(longUrl := existing.longUrl, title := existing.title, isActive := existing.isActive,
               updatedAt := existing.updatedAt) == existing
    ensures r.longUrl == (if request.longUrl.Some? then request.longUrl.value else existing.longUrl)
    ensures r.title == (if request.title.Some? then request.title else existing.title)
    ensures r.isActive == (if request.isActive.Some? then request.isActive.value else existing.isActive)
    ensures r.updatedAt == Some(now)
  {
    existing.(longUrl := if request.longUrl.Some? then request.longUrl.value else existing.longUrl,
              title := if request.title.Some? then request.title else existing.title,
              isActive := if request.isActive.Some? then request.isActive.value else existing.isActive,
              updatedAt := Some(now))
  }

  /** The two services store the same link exactly when the request leaves
      the long URL alone or sends one that already matches the scheme pattern;
      otherwise only LinkManipulationService adds "https://". */
  lemma ServicesAgreeIff(existing: Link, request: UpdateLinkRequest, now: Instant)
    ensures MergeUpdate(existing, request, now) == LinkManipulationService.MergeUpdate(existing, request, now)
            <==> request.longUrl.None? || MatchesSchemePattern(request.longUrl.value)
  {
    var verbatim := MergeUpdate(existing, request, now);
    var normalised := LinkManipulationService.MergeUpdate(existing, request, now);
    if request.longUrl.Some? && !MatchesSchemePattern(request.longUrl.value) {
      assert normalised.longUrl != verbatim.longUrl;
    }
  }

  /** update, @Transactional: a missing link or another user's link gives
      LinkNotFoundException with nothing written and nothing published;
      otherwise the row is rewritten, one updated event carrying the merged
      link is handed to the listener at commit, and its DTO is returned. */
  method Update(tx: Transaction, userId: string, linkId: int, request: UpdateLinkRequest,
                now: Instant, repoNow: Instant, sendResult: SendResult)
    returns (r: Result<LinkDto, LinkError>)
    requires tx.Valid() && !tx.active
    modifies tx, tx.table
    ensures tx.Valid() && !tx.active && tx.table.nextId == old(tx.table.nextId)
    ensures old(tx.table.FindByIdAndUserId(linkId, userId)).None? ==>
      && r == Err(LinkNotFound(NOT_FOUND_MESSAGE))
      && tx.table.rows == old(tx.table.rows)
      && tx.dispatched == old(tx.dispatched) && tx.outbox == old(tx.outbox) && tx.uncaught == old(tx.uncaught)
    ensures old(tx.table.FindByIdAndUserId(linkId, userId)).Some? ==>
      var updatedLink := MergeUpdate(old(tx.table.rows)[linkId], request, now);
      && r == Ok(ToLinkDto(updatedLink))
      && tx.table.rows == old(tx.table.rows)[linkId := UpdatedRow(old(tx.table.rows)[linkId], updatedLink, repoNow)]
      && tx.dispatched == old(tx.dispatched) + [LinkUpdatedApplicationEvent(updatedLink)]
      && tx.outbox == old(tx.outbox) + Flush(tx.wiring, tx.topicName, [LinkUpdatedApplicationEvent(updatedLink)], [sendResult]).records
      && tx.uncaught == old(tx.uncaught) + Flush(tx.wiring, tx.topicName, [LinkUpdatedApplicationEvent(updatedLink)], [sendResult]).uncaught
  {
    tx.Begin();
    var existingLink := tx.table.FindByIdAndUserId(linkId, userId);
    if existingLink.None? {
      tx.Rollback();
      return Err(LinkNotFound(NOT_FOUND_MESSAGE));
    }
    var updatedLink := MergeUpdate(existingLink.value, request, now);
    tx.table.Update(updatedLink, repoNow);
    tx.PublishEvent(LinkUpdatedApplicationEvent(updatedLink));
    tx.Commit([sendResult]);
    r := Ok(ToLinkDto(updatedLink));
  }
}
