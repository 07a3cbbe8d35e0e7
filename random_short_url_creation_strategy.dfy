/** RandomShortUrlCreationStrategy.java: a link under a generated code. Up to
    five times a code is generated and saved; a collision on the code moves on
    to the next attempt, any other failure ends the loop, and five collisions
    end in UnableToGenerateUniqueShortUrlException. The caller's shortUrl is
    not used. */
module RandomShortUrlCreationStrategy {
  import opened Basics
  import opened JavaLang
  import opened Exceptions
  import opened LinkModel
  import opened Dto
  import opened LinkMapper
  import opened ShortUrlGenerator
  import opened JdbcLinkRepository
  import opened ApplicationEvents
  import opened Transactions

  const MAX_GENERATION_ATTEMPTS: nat := 5

  /** The random source: one sequence of draws per attempt, each long enough
      for a code of the configured length. */
  predicate DrawsSuffice(urlLength: int, draws: seq<seq<int>>)
  {
    && |draws| >= MAX_GENERATION_ATTEMPTS
    && forall i :: 0 <= i < |draws| ==> ValidDraws(draws[i]) && |draws[i]| >= urlLength
  }

  /** The code generated at each attempt. */
  function AttemptCodes(urlLength: nat, draws: seq<seq<int>>): seq<string>
    requires DrawsSuffice(urlLength, draws)
  {
    seq(MAX_GENERATION_ATTEMPTS, i requires 0 <= i < MAX_GENERATION_ATTEMPTS => CodeFor(draws[i][..urlLength]))
  }

  /** The attempt at which the loop, started at attempt i, stops: the first one
      whose save does not collide (it succeeds or fails otherwise), or
      MAX_GENERATION_ATTEMPTS when every remaining attempt collides. A
      collision leaves the table as it was, so every attempt sees the same rows. */
  function StopAttempt(rows: map<int, Link>, codes: seq<string>, faults: seq<bool>, i: nat): (k: nat)
    requires i <= MAX_GENERATION_ATTEMPTS && |codes| >= MAX_GENERATION_ATTEMPTS && |faults| >= MAX_GENERATION_ATTEMPTS
    ensures i <= k <= MAX_GENERATION_ATTEMPTS
    ensures forall j :: i <= j < k ==> !faults[j] && HasCode(rows, codes[j])
    ensures k < MAX_GENERATION_ATTEMPTS ==> faults[k] || !HasCode(rows, codes[k])
    decreases MAX_GENERATION_ATTEMPTS - i
  {
    if i == MAX_GENERATION_ATTEMPTS then MAX_GENERATION_ATTEMPTS
    else if faults[i] || !HasCode(rows, codes[i]) then i
    else StopAttempt(rows, codes, faults, i + 1)
  }

  /** The message of UnableToGenerateUniqueShortUrlException(MAX_GENERATION_ATTEMPTS). */
  function ExhaustedMessage(): string
  {
    UnableToGenerateMessage(LongToString(MAX_GENERATION_ATTEMPTS))
  }

  /** What createLink leaves behind on a table with these rows and this next
      id: the saved link, or the exception it throws. */
  function RandomCreation(rows: map<int, Link>, nextId: int, urlLength: int,
                          userId: string, longUrl: string, isActive: bool, title: Option<string>,
                          now: Instant, draws: seq<seq<int>>, faults: seq<bool>): (r: Result<Link, LinkError>)
    requires DrawsSuffice(urlLength, draws) && |faults| >= MAX_GENERATION_ATTEMPTS
    ensures urlLength < 0 ==> r == Err(NegativeArraySize)
    ensures urlLength >= 0 ==>
      (r == Err(UnableToGenerateUniqueShortUrl(ExhaustedMessage()))
       <==> forall j :: 0 <= j < MAX_GENERATION_ATTEMPTS ==> !faults[j] && HasCode(rows, AttemptCodes(urlLength, draws)[j]))
    ensures r.Ok? ==>
      && urlLength >= 0
      && |r.value.shortUrl| == urlLength && !HasCode(rows, r.value.shortUrl)
      && r.value.id == Some(nextId) && !r.value.isCustom
      && r.value.userId == userId && r.value.longUrl == longUrl
      && r.value.isActive == isActive && r.value.title == title && r.value.notes.None?
      && r.value.createdAt == Some(now) && r.value.updatedAt.None? && r.value.expiresAt.None?
    ensures r.Err? ==> r.error in {NegativeArraySize, DataAccessFailure, UnableToGenerateUniqueShortUrl(ExhaustedMessage())}
    ensures urlLength >= 0 ==>
      var k := StopAttempt(rows, AttemptCodes(urlLength, draws), faults, 0);
      && (r.Ok? ==> k < MAX_GENERATION_ATTEMPTS && r.value.shortUrl == AttemptCodes(urlLength, draws)[k])
      && (r == Err(DataAccessFailure) <==> k < MAX_GENERATION_ATTEMPTS && faults[k])
      && (r.Ok? <==> k < MAX_GENERATION_ATTEMPTS && !faults[k])
    ensures r.Ok? ==> forall i :: 0 <= i < |r.value.shortUrl| ==> IsAlphabetChar(r.value.shortUrl[i])
  {
    if urlLength < 0 then Err(NegativeArraySize)
    else
      var codes := AttemptCodes(urlLength, draws);
      var k := StopAttempt(rows, codes, faults, 0);
      if k == MAX_GENERATION_ATTEMPTS then Err(UnableToGenerateUniqueShortUrl(ExhaustedMessage()))
      else if faults[k] then Err(DataAccessFailure)
      else Ok(ToLink(userId, longUrl, codes[k], isActive, false, title).WithIdAndCreatedAt(nextId, now))
  }

  /** The code a successful createLink stores is one the generator can
      produce: none of the look-alike characters 0, O, l and I, no white
      space, and it passes the request's short-code pattern. */
  lemma RandomCodeHasNoLookalikes(rows: map<int, Link>, nextId: int, urlLength: int,
                                  userId: string, longUrl: string, isActive: bool, title: Option<string>,
                                  now: Instant, draws: seq<seq<int>>, faults: seq<bool>)
    requires DrawsSuffice(urlLength, draws) && |faults| >= MAX_GENERATION_ATTEMPTS
    requires RandomCreation(rows, nextId, urlLength, userId, longUrl, isActive, title, now, draws, faults).Ok?
    ensures var code := RandomCreation(rows, nextId, urlLength, userId, longUrl, isActive, title, now, draws, faults).value.shortUrl;
      && '0' !in code && 'O' !in code && 'l' !in code && 'I' !in code
      && (forall i :: 0 <= i < |code| ==> !IsWhitespace(code[i]))
      && MatchesShortUrlPattern(Some(code))
  {
    var k := StopAttempt(rows, AttemptCodes(urlLength, draws), faults, 0);
    GeneratedCodeShape(draws[k][..urlLength]);
  }

  /** How many times createLink calls save: none when generation fails, one
      per attempt up to and including the one that stops the loop, and never
      more than MAX_GENERATION_ATTEMPTS. */
  function SaveCalls(rows: map<int, Link>, urlLength: int, draws: seq<seq<int>>, faults: seq<bool>): (n: nat)
    requires DrawsSuffice(urlLength, draws) && |faults| >= MAX_GENERATION_ATTEMPTS
    ensures n <= MAX_GENERATION_ATTEMPTS
    ensures urlLength >= 0 ==> n >= 1
  {
    if urlLength < 0 then 0
    else
      var k := StopAttempt(rows, AttemptCodes(urlLength, draws), faults, 0);
      if k == MAX_GENERATION_ATTEMPTS then k else k + 1
  }

  /** createLink, inside the caller's transaction. Collisions change nothing;
      the attempt that stops the loop either inserts one row and registers
      exactly one created event carrying the saved link, or fails with the
      table and the pending events as before. */
  method CreateLink(tx: Transaction, urlLength: int, baseLinkUrl: string,
                    userId: string, longUrl: string, ignoredShortUrl: Option<string>, isActive: bool,
                    title: Option<string>, now: Instant, draws: seq<seq<int>>, faults: seq<bool>)
    returns (r: Result<CreateLinkResponse, LinkError>, saves: nat)
    requires tx.Valid() && tx.active
    requires DrawsSuffice(urlLength, draws) && |faults| >= MAX_GENERATION_ATTEMPTS
    modifies tx, tx.table
    ensures tx.Valid() && tx.active && tx.snapshot == old(tx.snapshot)
    ensures tx.dispatched == old(tx.dispatched) && tx.outbox == old(tx.outbox) && tx.uncaught == old(tx.uncaught)
    ensures saves == SaveCalls(old(tx.table.rows), urlLength, draws, faults)
    ensures var c := RandomCreation(old(tx.table.rows), old(tx.table.nextId), urlLength,
                                    userId, longUrl, isActive, title, now, draws, faults);
      && (c.Err? ==> r == Err(c.error))
      && (c.Err? ==> tx.table.rows == old(tx.table.rows) && tx.table.nextId == old(tx.table.nextId))
      && (c.Err? ==> tx.pending == old(tx.pending))
      && (c.Ok? ==> r == Ok(ToCreateLinkResponse(baseLinkUrl, c.value)))
      && (c.Ok? ==> tx.table.rows == old(tx.table.rows)[old(tx.table.nextId) := InsertedRow(c.value, old(tx.table.nextId), now)])
      && (c.Ok? ==> tx.table.nextId == old(tx.table.nextId) + 1)
      && (c.Ok? ==> tx.pending == old(tx.pending) + [LinkCreatedApplicationEvent(c.value)])
  {
    ghost var rows := tx.table.rows;
    var i := 0;
    saves := 0;
    while i < MAX_GENERATION_ATTEMPTS
      invariant 0 <= i <= MAX_GENERATION_ATTEMPTS && saves == i
      invariant tx.Valid() && tx.active && tx.snapshot == old(tx.snapshot)
      invariant tx.dispatched == old(tx.dispatched) && tx.outbox == old(tx.outbox) && tx.uncaught == old(tx.uncaught)
      invariant tx.table.rows == rows && tx.table.nextId == old(tx.table.nextId)
      invariant tx.pending == old(tx.pending)
      invariant i > 0 ==> urlLength >= 0
      invariant i > 0 ==> forall j :: 0 <= j < i ==> !faults[j] && HasCode(rows, AttemptCodes(urlLength, draws)[j])
    {
      var generatedShortUrl := Generate(urlLength, draws[i]);
      if generatedShortUrl.Err? {
        return Err(generatedShortUrl.error), saves;
      }
      StopsAt(rows, AttemptCodes(urlLength, draws), faults, i);
      assert generatedShortUrl.value == AttemptCodes(urlLength, draws)[i];
      var outcome := SaveAttempt(tx, baseLinkUrl, userId, longUrl, generatedShortUrl.value, isActive, title, now, faults[i]);
      saves := saves + 1;
      if outcome.Some? {
        return outcome.value, saves;
      }
      i := i + 1;
    }
    StopsAt(rows, AttemptCodes(urlLength, draws), faults, i);
    r := Err(UnableToGenerateUniqueShortUrl(ExhaustedMessage()));
  }

  /** One pass of the loop body after generation: save the link under the
      generated code. A collision (None) leaves everything as it was; a
      storage failure ends the loop with the table as it was; a success
      inserts the row and registers its created event. */
  method SaveAttempt(tx: Transaction, baseLinkUrl: string, userId: string, longUrl: string, code: string,
                     isActive: bool, title: Option<string>, now: Instant, fault: bool)
    returns (outcome: Option<Result<CreateLinkResponse, LinkError>>)
    requires tx.Valid() && tx.active
    modifies tx, tx.table
    ensures tx.Valid() && tx.active && tx.snapshot == old(tx.snapshot)
    ensures tx.dispatched == old(tx.dispatched) && tx.outbox == old(tx.outbox) && tx.uncaught == old(tx.uncaught)
    ensures outcome.None? <==> !fault && old(HasCode(tx.table.rows, code))
    ensures fault ==> outcome == Some(Err(DataAccessFailure))
    ensures (outcome.None? || fault) ==>
      tx.table.rows == old(tx.table.rows) && tx.table.nextId == old(tx.table.nextId) && tx.pending == old(tx.pending)
    ensures !fault && !old(HasCode(tx.table.rows, code)) ==>
      var saved := ToLink(userId, longUrl, code, isActive, false, title).WithIdAndCreatedAt(old(tx.table.nextId), now);
      && outcome == Some(Ok(ToCreateLinkResponse(baseLinkUrl, saved)))
      && tx.table.rows == old(tx.table.rows)[old(tx.table.nextId) := InsertedRow(saved, old(tx.table.nextId), now)]
      && tx.table.nextId == old(tx.table.nextId) + 1
      && tx.pending == old(tx.pending) + [LinkCreatedApplicationEvent(saved)]
  {
    var linkToSave := ToLink(userId, longUrl, code, isActive, false, title);
    var saved := tx.table.Save(linkToSave, now, fault);
    match saved {
      case Err(DuplicateShortUrl) =>
        outcome := None;
      case Err(StorageFailure) =>
        outcome := Some(Err(DataAccessFailure));
      case Ok(savedLink) =>
        SavedRowIsInsertedRow(linkToSave, savedLink.id.value, now);
        tx.PublishEvent(LinkCreatedApplicationEvent(savedLink));
        outcome := Some(Ok(ToCreateLinkResponse(baseLinkUrl, savedLink)));
    }
  }

  /** When every attempt before i collided, the loop stops at attempt i if
      that one does not collide, and after the last attempt if i is past it. */
  lemma StopsAt(rows: map<int, Link>, codes: seq<string>, faults: seq<bool>, i: nat)
    requires i <= MAX_GENERATION_ATTEMPTS && |codes| >= MAX_GENERATION_ATTEMPTS && |faults| >= MAX_GENERATION_ATTEMPTS
    requires forall j :: 0 <= j < i ==> !faults[j] && HasCode(rows, codes[j])
    ensures i < MAX_GENERATION_ATTEMPTS && (faults[i] || !HasCode(rows, codes[i])) ==> StopAttempt(rows, codes, faults, 0) == i
    ensures i == MAX_GENERATION_ATTEMPTS ==> StopAttempt(rows, codes, faults, 0) == i
    ensures StopAttempt(rows, codes, faults, 0) >= i
  {
  }
}
