/** CustomShortUrlCreationStrategy.java: a link under the code the user asked
    for. The code is checked against the reserved words first; then there is
    exactly one save, and a collision on the code becomes
    ShortCodeAlreadyExistsException. */
module CustomShortUrlCreationStrategy {
  import opened Basics
  import opened Exceptions
  import opened LinkModel
  import opened Dto
  import opened LinkMapper
  import opened ReservedWordsValidator
  import opened JdbcLinkRepository
  import opened ApplicationEvents
  import opened Transactions

  /** What createLink leaves behind on a table with these rows and this next
      id: the saved link, or the exception it throws. */
  function CustomCreation(rows: map<int, Link>, nextId: int, reservedWords: set<string>,
                          userId: string, longUrl: string, shortUrl: string, isActive: bool,
                          title: Option<string>, now: Instant, fault: bool): (r: Result<Link, LinkError>)
    ensures IsReserved(reservedWords, shortUrl) ==> r == Err(ReservedShortUrl(ReservedShortUrlMessage(shortUrl)))
    ensures !IsReserved(reservedWords, shortUrl) && fault ==> r == Err(DataAccessFailure)
    ensures !IsReserved(reservedWords, shortUrl) && !fault && HasCode(rows, shortUrl) ==>
      r == Err(ShortCodeAlreadyExists(ShortCodeAlreadyExistsMessage(shortUrl)))
    ensures r.Ok? <==> !IsReserved(reservedWords, shortUrl) && !fault && !HasCode(rows, shortUrl)
    ensures r.Ok? ==>
      && r.value.id == Some(nextId) && r.value.shortUrl == shortUrl && r.value.isCustom
      && r.value.userId == userId && r.value.longUrl == longUrl
      && r.value.isActive == isActive && r.value.title == title && r.value.notes.None?
      && r.value.createdAt == Some(now) && r.value.updatedAt.None? && r.value.expiresAt.None?
  {
    match Validate(reservedWords, Some(shortUrl))
    case Some(reserved) => Err(reserved)
    case None =>
      if fault then Err(DataAccessFailure)
      else if HasCode(rows, shortUrl) then Err(ShortCodeAlreadyExists(ShortCodeAlreadyExistsMessage(shortUrl)))
      else Ok(ToLink(userId, longUrl, shortUrl, isActive, true, title).WithIdAndCreatedAt(nextId, now))
  }

  /** createLink, inside the caller's transaction. On success one row is
      inserted and exactly one created event, carrying the saved link, is
      registered; on any failure the table and the pending events are as before. */
  method CreateLink(tx: Transaction, reservedWords: set<string>, baseLinkUrl: string,
                    userId: string, longUrl: string, shortUrl: string, isActive: bool,
                    title: Option<string>, now: Instant, fault: bool)
    returns (r: Result<CreateLinkResponse, LinkError>)
    requires tx.Valid() && tx.active
    modifies tx, tx.table
    ensures tx.Valid() && tx.active && tx.snapshot == old(tx.snapshot)
    ensures tx.dispatched == old(tx.dispatched) && tx.outbox == old(tx.outbox) && tx.uncaught == old(tx.uncaught)
    ensures var c := CustomCreation(old(tx.table.rows), old(tx.table.nextId), reservedWords,
                                    userId, longUrl, shortUrl, isActive, title, now, fault);
      && (c.Err? ==> r == Err(c.error))
      && (c.Err? ==> tx.table.rows == old(tx.table.rows) && tx.table.nextId == old(tx.table.nextId))
      && (c.Err? ==> tx.pending == old(tx.pending))
      && (c.Ok? ==> r == Ok(ToCreateLinkResponse(baseLinkUrl, c.value)))
      && (c.Ok? ==> tx.table.rows == old(tx.table.rows)[old(tx.table.nextId) := InsertedRow(c.value, old(tx.table.nextId), now)])
      && (c.Ok? ==> tx.table.nextId == old(tx.table.nextId) + 1)
      && (c.Ok? ==> tx.pending == old(tx.pending) + [LinkCreatedApplicationEvent(c.value)])
  {
    var reserved := Validate(reservedWords, Some(shortUrl));
    if reserved.Some? {
      return Err(reserved.value);
    }
    var linkToSave := ToLink(userId, longUrl, shortUrl, isActive, true, title);
    var saved := tx.table.Save(linkToSave, now, fault);
    match saved {
      case Err(DuplicateShortUrl) =>
        r := Err(ShortCodeAlreadyExists(ShortCodeAlreadyExistsMessage(shortUrl)));
      case Err(StorageFailure) =>
        r := Err(DataAccessFailure);
      case Ok(savedLink) =>
        SavedRowIsInsertedRow(linkToSave, savedLink.id.value, now);
        tx.PublishEvent(LinkCreatedApplicationEvent(savedLink));
        r := Ok(ToCreateLinkResponse(baseLinkUrl, savedLink));
    }
  }

  /** A code the strategy stores is never a reserved one and was free in the
      table before; its row is the only new row, under the next id. */
  lemma StoredCodeIsFreeAndAllowed(rows: map<int, Link>, nextId: int, reservedWords: set<string>,
                                   userId: string, longUrl: string, shortUrl: string, isActive: bool,
                                   title: Option<string>, now: Instant, fault: bool)
    requires ValidRows(rows, nextId)
    requires CustomCreation(rows, nextId, reservedWords, userId, longUrl, shortUrl, isActive, title, now, fault).Ok?
    ensures Validate(reservedWords, Some(shortUrl)).None?
    ensures nextId !in rows
    ensures var saved := CustomCreation(rows, nextId, reservedWords, userId, longUrl, shortUrl, isActive, title, now, fault).value;
      ValidRows(rows[nextId := InsertedRow(saved, nextId, now)], nextId + 1)
  {
    assert forall k :: k in rows ==> rows[k].shortUrl != shortUrl;
  }
}
