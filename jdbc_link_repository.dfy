/** JdbcLinkRepository.java: the links table, held in memory as a map from
    the generated id to the stored row. The clock reading of each statement is
    a parameter; a storage failure other than a duplicate code is an oracle. */
module JdbcLinkRepository {
  import opened Basics
  import opened LinkModel

  /** Days until a link expires when it is saved without an expiry. */
  const DEFAULT_EXPIRY_DAYS: int := 7

  /** providedDateOr: the link's own timestamp when it has one, the fallback otherwise. */
  function ProvidedDateOr(provided: Option<Instant>, or: Instant): (r: Instant)
    ensures provided.Some? ==> r == provided.value
    ensures provided.None? ==> r == or
  {
    if provided.Some? then provided.value else or
  }

  /** The row INSERTed by save: the link's columns, the generated id, and each
      of created_at, updated_at and expires_at defaulted when the link has none. */
  function InsertedRow(link: Link, id: int, now: Instant): Link
  {
    link.(id := Some(id),
          createdAt := Some(ProvidedDateOr(link.createdAt, now)),
          updatedAt := Some(ProvidedDateOr(link.updatedAt, now)),
          expiresAt := Some(ProvidedDateOr(link.expiresAt, PlusDays(now, DEFAULT_EXPIRY_DAYS))))
  }

  /** The stored row after update: only long_url, title and is_active are taken
      from the link, and updated_at is the statement's own clock reading. */
  function UpdatedRow(stored: Link, link: Link, now: Instant): Link
  {
    stored.(longUrl := link.longUrl, title := link.title, isActive := link.isActive, updatedAt := Some(now))
  }

  /** The WHERE clause of deleteDeactivatedCustomLinksOlderThan. A NULL
      updated_at compares as unknown, so it never qualifies. */
  predicate Purgeable(link: Link, cutoffDate: Instant)
  {
    link.isCustom && !link.isActive && link.updatedAt.Some? && link.updatedAt.value < cutoffDate
  }

  function PurgeableIds(rows: map<int, Link>, cutoffDate: Instant): set<int>
  {
    set k | k in rows && Purgeable(rows[k], cutoffDate)
  }

  /** The table after the bulk delete: exactly the rows that do not qualify, unchanged. */
  function Purged(rows: map<int, Link>, cutoffDate: Instant): (r: map<int, Link>)
    ensures forall k :: k in r <==> k in rows && k !in PurgeableIds(rows, cutoffDate)
    ensures forall k :: k in r ==> r[k] == rows[k] && !Purgeable(r[k], cutoffDate)
  {
    map k | k in rows && !Purgeable(rows[k], cutoffDate) :: rows[k]
  }

  /** Ids come from the sequence (below nextId) and are stored in their row,
      created_at and updated_at are never NULL, and short_url is unique. */
  ghost predicate ValidRows(rows: map<int, Link>, nextId: int)
  {
    && nextId >= 1
    && (forall k :: k in rows ==> 1 <= k < nextId && rows[k].id == Some(k))
    && (forall k :: k in rows ==> rows[k].createdAt.Some? && rows[k].updatedAt.Some?)
    && (forall j, k :: j in rows && k in rows && rows[j].shortUrl == rows[k].shortUrl ==> j == k)
  }

  /** Some stored row carries this short_url. */
  predicate HasCode(rows: map<int, Link>, shortUrl: string)
  {
    exists k :: k in rows && rows[k].shortUrl == shortUrl
  }

  /** Why a save failed: a second row with the same short_url (the unique
      constraint), or any other storage failure. */
  datatype SaveError = DuplicateShortUrl | StorageFailure

  class LinkTable {
    var rows: map<int, Link>
    /** The next value of the id sequence. */
    var nextId: int

    ghost predicate Valid()
      reads this
    {
      ValidRows(rows, nextId)
    }

    constructor ()
      ensures Valid() && rows == map[] && nextId == 1
    {
      rows := map[];
      nextId := 1;
    }

    predicate HasShortUrl(shortUrl: string)
      reads this
    {
      HasCode(rows, shortUrl)
    }

    /** save: a storage failure or a duplicate code changes nothing; otherwise
        one row is inserted under the next id, and the caller gets back its own
        link with that id and the created_at actually stored. */
    method Save(link: Link, now: Instant, fault: bool) returns (r: Result<Link, SaveError>)
      requires Valid()
      modifies this
      ensures Valid()
      ensures fault ==> r == Err(StorageFailure)
      ensures !fault && old(HasShortUrl(link.shortUrl)) ==> r == Err(DuplicateShortUrl)
      ensures r.Err? ==> rows == old(rows) && nextId == old(nextId)
      ensures r.Ok? <==> !fault && !old(HasShortUrl(link.shortUrl))
      ensures r.Ok? ==> r.value == link.WithIdAndCreatedAt(old(nextId), ProvidedDateOr(link.createdAt, now))
      ensures r.Ok? ==> rows == old(rows)[old(nextId) := InsertedRow(link, old(nextId), now)]
      ensures r.Ok? ==> nextId == old(nextId) + 1
    {
      if fault {
        return Err(StorageFailure);
      }
      if HasShortUrl(link.shortUrl) {
        return Err(DuplicateShortUrl);
      }
      var createdAt := ProvidedDateOr(link.createdAt, now);
      var generatedId := nextId;
      rows := rows[generatedId := InsertedRow(link, generatedId, now)];
      nextId := nextId + 1;
      r := Ok(link.WithIdAndCreatedAt(generatedId, createdAt));
    }

    /** findByShortUrl: the row with exactly this code, if there is one. */
    method FindByShortUrl(shortUrl: string) returns (r: Option<Link>)
      requires Valid()
      ensures r.Some? <==> HasShortUrl(shortUrl)
      ensures r.Some? ==> r.value.shortUrl == shortUrl && r.value.id.Some?
                          && r.value.id.value in rows && rows[r.value.id.value] == r.value
    {
      var id := 1;
      while id < nextId
        invariant 1 <= id <= nextId
        invariant forall k :: k in rows && k < id ==> rows[k].shortUrl != shortUrl
      {
        if id in rows && rows[id].shortUrl == shortUrl {
          return Some(rows[id]);
        }
        id := id + 1;
      }
      return None;
    }

    /** findByUserId: exactly the user's rows, each once, in id order. */
    method FindByUserId(userId: string) returns (r: seq<Link>)
      requires Valid()
      ensures forall i :: 0 <= i < |r| ==>
        r[i].userId == userId && r[i].id.Some? && r[i].id.value in rows && rows[r[i].id.value] == r[i]
      ensures forall k :: k in rows && rows[k].userId == userId ==> rows[k] in r
      ensures forall i, j :: 0 <= i < j < |r| ==> r[i].id.value < r[j].id.value
    {
      r := [];
      var id := 1;
      while id < nextId
        invariant 1 <= id <= nextId
        invariant forall i :: 0 <= i < |r| ==>
          r[i].userId == userId && r[i].id.Some? && r[i].id.value in rows && rows[r[i].id.value] == r[i]
          && r[i].id.value < id
        invariant forall k :: k in rows && k < id && rows[k].userId == userId ==> rows[k] in r
        invariant forall i, j :: 0 <= i < j < |r| ==> r[i].id.value < r[j].id.value
      {
        if id in rows && rows[id].userId == userId {
          r := r + [rows[id]];
        }
        id := id + 1;
      }
    }

    /** findByIdAndUserId: present only when both the id and the owner match,
        so a link of another user looks exactly like a missing one. */
    function FindByIdAndUserId(id: int, userId: string): (r: Option<Link>)
      reads this
      ensures r.Some? <==> id in rows && rows[id].userId == userId
      ensures r.Some? ==> r.value == rows[id]
    {
      if id in rows && rows[id].userId == userId then Some(rows[id]) else None
    }

    /** update: WHERE id = :id, not scoped by owner; a NULL or unknown id
        matches no row. */
    method Update(link: Link, now: Instant)
      requires Valid()
      modifies this
      ensures Valid() && nextId == old(nextId)
      ensures link.id.Some? && link.id.value in old(rows) ==>
        rows == old(rows)[link.id.value := UpdatedRow(old(rows)[link.id.value], link, now)]
      ensures !(link.id.Some? && link.id.value in old(rows)) ==> rows == old(rows)
    {
      if link.id.Some? && link.id.value in rows {
        var id := link.id.value;
        rows := rows[id := UpdatedRow(rows[id], link, now)];
      }
    }

    /** deleteByIdAndUserId: removes the row only when both id and owner match. */
    method DeleteByIdAndUserId(id: int, userId: string)
      requires Valid()
      modifies this
      ensures Valid() && nextId == old(nextId)
      ensures id in old(rows) && old(rows)[id].userId == userId ==> rows == old(rows) - {id}
      ensures !(id in old(rows) && old(rows)[id].userId == userId) ==> rows == old(rows)
    {
      if id in rows && rows[id].userId == userId {
        rows := rows - {id};
      }
    }

    /** deleteDeactivatedCustomLinksOlderThan: one DELETE; the count is the
        number of rows it removed. */
    method DeleteDeactivatedCustomLinksOlderThan(cutoffDate: Instant) returns (count: int)
      requires Valid()
      modifies this
      ensures Valid() && nextId == old(nextId)
      ensures rows == Purged(old(rows), cutoffDate)
      ensures count == |PurgeableIds(old(rows), cutoffDate)|
    {
      count := |PurgeableIds(rows, cutoffDate)|;
      rows := Purged(rows, cutoffDate);
    }
  }

  /** The defaults of save: a link with no timestamps is stored as created and
      updated at the same clock reading and expiring seven days later; a
      timestamp the link carries is stored as it is. */
  lemma InsertedRowDefaults(link: Link, id: int, now: Instant)
    ensures InsertedRow(link, id, now).id == Some(id)
    ensures link.createdAt.None? ==> InsertedRow(link, id, now).createdAt == Some(now)
    ensures link.updatedAt.None? ==> InsertedRow(link, id, now).updatedAt == Some(now)
    ensures link.expiresAt.None? ==> InsertedRow(link, id, now).expiresAt == Some(now + 7 * 86_400 * 1_000_000_000)
    ensures link.createdAt.Some? ==> InsertedRow(link, id, now).createdAt == link.createdAt
    ensures link.updatedAt.Some? ==> InsertedRow(link, id, now).updatedAt == link.updatedAt
    ensures link.expiresAt.Some? ==> InsertedRow(link, id, now).expiresAt == link.expiresAt
    ensures InsertedRow(link, id, now).(id := link.id, createdAt := link.createdAt,
              updatedAt := link.updatedAt, expiresAt := link.expiresAt) == link
  {
  }

  /** The link save hands back equals the stored row exactly when the link
      already carried updated_at and expires_at: save copies only the id and
      created_at into its answer, not the other two defaults. */
  lemma SavedLinkEqualsRowIff(link: Link, id: int, now: Instant)
    ensures link.WithIdAndCreatedAt(id, ProvidedDateOr(link.createdAt, now)) == InsertedRow(link, id, now)
            <==> link.updatedAt.Some? && link.expiresAt.Some?
  {
    var returned := link.WithIdAndCreatedAt(id, ProvidedDateOr(link.createdAt, now));
    assert returned.updatedAt == link.updatedAt && returned.expiresAt == link.expiresAt;
  }

  /** Saving the link save handed back would store the same row again: the
      returned link determines the inserted row. */
  lemma SavedRowIsInsertedRow(link: Link, id: int, now: Instant)
    ensures InsertedRow(link.WithIdAndCreatedAt(id, ProvidedDateOr(link.createdAt, now)), id, now) == InsertedRow(link, id, now)
  {
  }

  /** update changes only long_url, title, is_active and updated_at, and takes
      updated_at from the clock, never from the link. */
  lemma UpdatedRowColumns(stored: Link, link: Link, now: Instant)
    ensures UpdatedRow(stored, link, now).longUrl == link.longUrl
    ensures UpdatedRow(stored, link, now).title == link.title
    ensures UpdatedRow(stored, link, now).isActive == link.isActive
    ensures UpdatedRow(stored, link, now).updatedAt == Some(now)
    ensures UpdatedRow(stored, link, now).(longUrl := stored.longUrl, title := stored.title,
              isActive := stored.isActive, updatedAt := stored.updatedAt) == stored
  {
  }

  /** Every row is either kept or counted, never both. */
  lemma {:induction false} PurgeAccounting(rows: map<int, Link>, cutoffDate: Instant)
    ensures |Purged(rows, cutoffDate)| + |PurgeableIds(rows, cutoffDate)| == |rows|
  {
    var kept := Purged(rows, cutoffDate).Keys;
    var gone := PurgeableIds(rows, cutoffDate);
    assert rows.Keys == kept + gone;
    assert kept * gone == {};
  }

  /** Running the bulk delete again at once removes nothing more. */
  lemma PurgeIdempotent(rows: map<int, Link>, cutoffDate: Instant)
    ensures PurgeableIds(Purged(rows, cutoffDate), cutoffDate) == {}
    ensures Purged(Purged(rows, cutoffDate), cutoffDate) == Purged(rows, cutoffDate)
  {
  }
}
