/** LinkManipulationService.java: the owner-scoped update and delete, each in
    its own transaction. The update merges the request into the stored link,
    normalising a supplied long URL; the delete announces the link as it was
    before the delete. */
module LinkManipulationService {
  import opened Basics
  import opened Exceptions
  import opened LinkModel
  import opened Dto
  import opened LinkMapper
  import opened UrlSanitizer
  import opened JdbcLinkRepository
  import opened ApplicationEvents
  import opened LinkLifecycleEvents
  import opened Transactions

  /** The merged link of update: each of longUrl, title and isActive is
      replaced only when the request carries it (a supplied long URL gets a
      scheme when it lacks one, a kept one is not touched again), updatedAt is
      the service's clock reading, and every other component is kept. */
  function MergeUpdate(existing: Link, request: UpdateLinkRequest, now: Instant): (r: Link)
    ensures r.(longUrl := existing.longUrl, title := existing.title, isActive := existing.isActive,
               updatedAt := existing.updatedAt) == existing
    ensures request.longUrl.None? ==> r.longUrl == existing.longUrl
    ensures request.longUrl.Some? ==> Some(r.longUrl) == PrependProtocolIfMissing(request.longUrl)
    ensures request.longUrl.Some? ==> HasScheme(r.longUrl)
    ensures r.title == (if request.title.Some? then request.title else existing.title)
    ensures r.isActive == (if request.isActive.Some? then request.isActive.value else existing.isActive)
    ensures r.updatedAt == Some(now)
  {
    var cleanUrl := if request.longUrl.Some? then PrependProtocolIfMissing(request.longUrl).value else existing.longUrl;
    existing.(longUrl := cleanUrl,
              title := if request.title.Some? then request.title else existing.title,
              isActive := if request.isActive.Some? then request.isActive.value else existing.isActive,
              updatedAt := Some(now))
  }

  /** An empty request changes nothing but the update time. */
  lemma EmptyRequestOnlyTouchesUpdatedAt(existing: Link, now: Instant)
    ensures MergeUpdate(existing, UpdateLinkRequest(None, None, None), now) == existing.(updatedAt := Some(now))
  {
  }

  /** Two requests folded into one: each field from the later request when it
      carries one, from the earlier otherwise. */
  function Combined(first: UpdateLinkRequest, second: UpdateLinkRequest): UpdateLinkRequest
  {
    UpdateLinkRequest(if second.longUrl.Some? then second.longUrl else first.longUrl,
                      if second.isActive.Some? then second.isActive else first.isActive,
                      if second.title.Some? then second.title else first.title)
  }

  /** Two updates in a row amount to one update with the combined request.
      In particular a request applied twice at the same instant gives the same
      link as applied once, because a supplied long URL is normalised from the
      request and not from the stored value. */
  lemma MergeUpdateComposes(existing: Link, first: UpdateLinkRequest, second: UpdateLinkRequest, t1: Instant, t2: Instant)
    ensures MergeUpdate(MergeUpdate(existing, first, t1), second, t2) == MergeUpdate(existing, Combined(first, second), t2)
    ensures MergeUpdate(MergeUpdate(existing, first, t1), first, t1) == MergeUpdate(existing, first, t1)
  {
  }

  /** The row the repository stores for the merged link is the merged link
      itself exactly when the repository's clock reading equals the service's:
      the repository sets updated_at from its own clock. */
  lemma StoredRowIsEventLinkIff(existing: Link, request: UpdateLinkRequest, now: Instant, repoNow: Instant)
    ensures UpdatedRow(existing, MergeUpdate(existing, request, now), repoNow) == MergeUpdate(existing, request, now)
            <==> repoNow == now
  {
    if repoNow != now {
      assert UpdatedRow(existing, MergeUpdate(existing, request, now), repoNow).updatedAt == Some(repoNow);
    }
  }

  /** update, @Transactional. A missing link or another user's link gives
      LinkNotFoundException with nothing written and nothing published;
      otherwise the row is rewritten, one updated event carrying the merged
      link is handed to the listener at commit, and the merged link's DTO is
      returned. The repository stamps updated_at from its own clock reading repoNow. */
  method Update(tx: Transaction, userId: string, linkId: int, request: UpdateLinkRequest,
                now: Instant, repoNow: Instant, sendResult: SendResult)
    returns (r: Result<LinkDto, LinkError>)
    requires tx.Valid() && !tx.active
    modifies tx, tx.table
    ensures tx.Valid() && !tx.active && tx.table.nextId == old(tx.table.nextId)
    ensures old(tx.table.FindByIdAndUserId(linkId, userId)).None? ==>
      && r == Err(LinkNotFound(NOT_FOUND_MESSAGE))
      && tx.table.rows == old(tx.table.rows)
      && tx.dispatched == old(tx.dispatched) && tx.outbox == old(tx.outbox) && tx.uncaught == old(tx.uncaught)
    ensures old(tx.table.FindByIdAndUserId(linkId, userId)).Some? ==>
      var updatedLink := MergeUpdate(old(tx.table.rows)[linkId], request, now);
      && r == Ok(ToLinkDto(updatedLink))
      && tx.table.rows == old(tx.table.rows)[linkId := UpdatedRow(old(tx.table.rows)[linkId], updatedLink, repoNow)]
      && tx.dispatched == old(tx.dispatched) + [LinkUpdatedApplicationEvent(updatedLink)]
      && tx.outbox == old(tx.outbox) + Flush(tx.wiring, tx.topicName, [LinkUpdatedApplicationEvent(updatedLink)], [sendResult]).records
      && tx.uncaught == old(tx.uncaught) + Flush(tx.wiring, tx.topicName, [LinkUpdatedApplicationEvent(updatedLink)], [sendResult]).uncaught
  {
    tx.Begin();
    var existingLink := tx.table.FindByIdAndUserId(linkId, userId);
    if existingLink.None? {
      tx.Rollback();
      return Err(LinkNotFound(NOT_FOUND_MESSAGE));
    }
    var updatedLink := MergeUpdate(existingLink.value, request, now);
    tx.table.Update(updatedLink, repoNow);
    tx.PublishEvent(LinkUpdatedApplicationEvent(updatedLink));
    tx.Commit([sendResult]);
    r := Ok(ToLinkDto(updatedLink));
  }

  /** deleteLink, @Transactional. A missing link or another user's link gives
      LinkNotFoundException with nothing deleted and nothing published;
      otherwise exactly that row is removed and one deleted event carrying the
      row as it was before the delete is handed to the listener at commit. */
  method DeleteLink(tx: Transaction, userId: string, linkId: int, sendResult: SendResult)
    returns (r: Option<LinkError>)
    requires tx.Valid() && !tx.active
    modifies tx, tx.table
    ensures tx.Valid() && !tx.active && tx.table.nextId == old(tx.table.nextId)
    ensures old(tx.table.FindByIdAndUserId(linkId, userId)).None? ==>
      && r == Some(LinkNotFound(NOT_FOUND_MESSAGE))
      && tx.table.rows == old(tx.table.rows)
      && tx.dispatched == old(tx.dispatched) && tx.outbox == old(tx.outbox) && tx.uncaught == old(tx.uncaught)
    ensures old(tx.table.FindByIdAndUserId(linkId, userId)).Some? ==>
      && r.None?
      && tx.table.rows == old(tx.table.rows) - {linkId}
      && tx.dispatched == old(tx.dispatched) + [LinkDeletedApplicationEvent(old(tx.table.rows)[linkId])]
      && tx.outbox == old(tx.outbox) + Flush(tx.wiring, tx.topicName, [LinkDeletedApplicationEvent(old(tx.table.rows)[linkId])], [sendResult]).records
      && tx.uncaught == old(tx.uncaught) + Flush(tx.wiring, tx.topicName, [LinkDeletedApplicationEvent(old(tx.table.rows)[linkId])], [sendResult]).uncaught
  {
    tx.Begin();
    var link := tx.table.FindByIdAndUserId(linkId, userId);
    if link.None? {
      tx.Rollback();
      return Some(LinkNotFound(NOT_FOUND_MESSAGE));
    }
    tx.table.DeleteByIdAndUserId(linkId, userId);
    tx.PublishEvent(LinkDeletedApplicationEvent(link.value));
    tx.Commit([sendResult]);
    r := None;
  }
}
