/** Link.java: the immutable link record. */
module LinkModel {
  import opened Basics

  /** One row of the links table. isCustom is the column the repository reads
      and writes; id is None until the link has been saved. */
  datatype Link = Link(
    id: Option<int>,
    userId: string,
    shortUrl: string,
    longUrl: string,
    title: Option<string>,
    notes: Option<string>,
    isActive: bool,
    isCustom: bool,
    createdAt: Option<Instant>,
    updatedAt: Option<Instant>,
    expiresAt: Option<Instant>)
  {
    /** Link.withId: a new record carrying the generated id; the receiver is a
        value and is left as it was. */
    function WithId(generatedId: Option<int>): (r: Link)
      ensures r.id == generatedId
      ensures r.(id := id) == this
    {
      this.(id := generatedId)
    }

    /** The copy the repository returns from save: the generated id and the
        creation time actually stored, every other component as given. */
    function WithIdAndCreatedAt(generatedId: int, storedCreatedAt: Instant): (r: Link)
      ensures r.id == Some(generatedId) && r.createdAt == Some(storedCreatedAt)
      ensures r.(id := id, createdAt := createdAt) == this
    {
      this.(id := Some(generatedId), createdAt := Some(storedCreatedAt))
    }
  }
}
