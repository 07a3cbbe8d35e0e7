/** LinkFacade.java: picks the creation strategy from the shape of the
    requested code and runs it in one transaction; the created event reaches
    the listener only when that transaction commits. */
module LinkFacade {
  import opened Basics
  import opened JavaLang
  import opened Exceptions
  import opened LinkModel
  import opened Dto
  import opened LinkMapper
  import opened JdbcLinkRepository
  import opened ApplicationEvents
  import opened LinkLifecycleEvents
  import opened Transactions
  import CustomShortUrlCreationStrategy
  import RandomShortUrlCreationStrategy
  import LinkCreatedKafkaProducer

  datatype CreationStrategyType = CUSTOM | RANDOM

  /** The enum constant's name, as string concatenation prints it. */
  function TypeName(t: CreationStrategyType): string
  {
    match t
    case CUSTOM => "CUSTOM"
    case RANDOM => "RANDOM"
  }

  /** getStrategyType: a code that is present and not blank asks for CUSTOM. */
  function GetStrategyType(shortUrl: Option<string>): (t: CreationStrategyType)
    ensures t == CUSTOM <==> shortUrl.Some? && !IsBlank(shortUrl.value)
    ensures t == RANDOM <==> shortUrl.None? || IsBlank(shortUrl.value)
  {
    if shortUrl.Some? && !IsBlank(shortUrl.value) then CUSTOM else RANDOM
  }

  /** For a request whose code passed the shortUrl pattern, blank means empty:
      CUSTOM is chosen exactly when a non-empty code was sent. */
  lemma ValidRequestSelectsCustomIff(request: CreateLinkRequest)
    requires MatchesShortUrlPattern(request.shortUrl)
    ensures GetStrategyType(request.shortUrl) == CUSTOM <==> request.shortUrl.Some? && request.shortUrl.value != ""
  {
    if request.shortUrl.Some? && request.shortUrl.value != "" {
      PatternExcludesSlashAndWhitespace(request.shortUrl.value);
      assert !IsWhitespace(request.shortUrl.value[0]);
    }
  }

  /** A request that passed bean validation, handed to createLink through
      its accessors: the flag is never null, so its unboxing cannot throw; the
      custom strategy is chosen exactly for a non-empty code, and that code has
      no slash or white space; a created link carries the request's long URL,
      present and within 1024 characters, and its title within 255. */
  lemma ValidRequestCreation(strategies: map<CreationStrategyType, LinkCreationStrategy>,
                             rows: map<int, Link>, nextId: int, userId: string, request: CreateLinkRequest,
                             now: Instant, draws: seq<seq<int>>, faults: seq<bool>)
    requires IsValid(request)
    requires WellKeyed(strategies) && InputsSuffice(strategies, draws, faults)
    ensures var r := Creation(strategies, rows, nextId, userId, request.longUrl.value, request.shortUrl,
                              Some(request.IsActive()), request.title, now, draws, faults);
      && r != Err(NullPointer)
      && (r.Ok? ==> (r.value.isCustom <==> request.shortUrl.Some? && request.shortUrl.value != ""))
      && (r.Ok? && r.value.isCustom ==> forall i :: 0 <= i < |r.value.shortUrl| ==>
            r.value.shortUrl[i] != '/' && !IsWhitespace(r.value.shortUrl[i]))
      && (r.Ok? ==> NotBlank(Some(r.value.longUrl)) && |r.value.longUrl| <= MAX_LONG_URL_LENGTH)
      && (r.Ok? ==> SizeAtMost(r.value.title, MAX_TITLE_LENGTH))
      && (r.Ok? ==> r.value.isActive == (request.isActive.None? || request.isActive.value))
  {
    ValidRequestSelectsCustomIff(request);
    if GetStrategyType(request.shortUrl) == CUSTOM {
      PatternExcludesSlashAndWhitespace(request.shortUrl.value);
    }
  }

  /** The two strategy beans, with what each needs from its collaborators:
      the reserved words and the mapper's base URL, or the generator's code
      length and the mapper's base URL. */
  datatype LinkCreationStrategy =
    | Custom(reservedWords: set<string>, baseLinkUrl: string)
    | Random(urlLength: int, baseLinkUrl: string)
  {
    function GetType(): (t: CreationStrategyType)
      ensures t == CUSTOM <==> this.Custom?
    {
      if this.Custom? then CUSTOM else RANDOM
    }
  }

  /** Every strategy in the map sits under its own type. */
  predicate WellKeyed(strategies: map<CreationStrategyType, LinkCreationStrategy>)
  {
    forall t :: t in strategies ==> strategies[t].GetType() == t
  }

  function DuplicateKeyMessage(t: CreationStrategyType): string
  {
    "Duplicate key " + TypeName(t)
  }

  /** The constructor's Collectors.toUnmodifiableMap(getType, identity): one
      entry per bean under its type, or IllegalStateException at the first bean
      whose type is already taken. */
  function BuildStrategies(strategiesList: seq<LinkCreationStrategy>): (r: Result<map<CreationStrategyType, LinkCreationStrategy>, LinkError>)
    ensures r.Ok? <==> forall i, j :: 0 <= i < j < |strategiesList| ==> strategiesList[i].GetType() != strategiesList[j].GetType()
    ensures r.Ok? ==> WellKeyed(r.value)
    ensures r.Ok? ==> forall t :: t in r.value <==> exists i :: 0 <= i < |strategiesList| && strategiesList[i].GetType() == t
    ensures r.Ok? ==> forall i :: 0 <= i < |strategiesList| ==> r.value[strategiesList[i].GetType()] == strategiesList[i]
    ensures r.Err? ==> r.error.IllegalState? && StartsWith(r.error.message, "Duplicate key ")
    decreases |strategiesList|
  {
    if strategiesList == [] then Ok(map[])
    else
      var n := |strategiesList| - 1;
      var last := strategiesList[n];
      match BuildStrategies(strategiesList[..n])
      case Err(e) => Err(e)
      case Ok(m) =>
        if last.GetType() in m then Err(IllegalState(DuplicateKeyMessage(last.GetType())))
        else Ok(m[last.GetType() := last])
  }

  function NoStrategyMessage(t: CreationStrategyType): string
  {
    "No LinkCreationStrategy bean found for type: " + TypeName(t)
  }

  /** What the random source must supply for the RANDOM bean, if there is one. */
  predicate InputsSuffice(strategies: map<CreationStrategyType, LinkCreationStrategy>, draws: seq<seq<int>>, faults: seq<bool>)
  {
    && |faults| >= RandomShortUrlCreationStrategy.MAX_GENERATION_ATTEMPTS
    && (RANDOM in strategies && strategies[RANDOM].Random? ==>
          RandomShortUrlCreationStrategy.DrawsSuffice(strategies[RANDOM].urlLength, draws))
  }

  /** What the strategy leaves behind on a table with these rows and this next id. */
  function StrategyCreation(strategy: LinkCreationStrategy, rows: map<int, Link>, nextId: int,
                            userId: string, longUrl: string, shortUrl: Option<string>, isActive: bool,
                            title: Option<string>, now: Instant, draws: seq<seq<int>>, faults: seq<bool>): (r: Result<Link, LinkError>)
    requires strategy.Custom? ==> shortUrl.Some? && |faults| >= 1
    requires strategy.Random? ==>
      RandomShortUrlCreationStrategy.DrawsSuffice(strategy.urlLength, draws)
      && |faults| >= RandomShortUrlCreationStrategy.MAX_GENERATION_ATTEMPTS
    ensures r != Err(NullPointer)
  {
    match strategy
    case Custom(reservedWords, _) =>
      CustomShortUrlCreationStrategy.CustomCreation(rows, nextId, reservedWords, userId, longUrl, shortUrl.value,
                                                    isActive, title, now, faults[0])
    case Random(urlLength, _) =>
      RandomShortUrlCreationStrategy.RandomCreation(rows, nextId, urlLength, userId, longUrl,
                                                    isActive, title, now, draws, faults)
  }

  /** What createLink leaves behind on a table with these rows and this next
      id: the saved link, or the exception it throws. A missing bean is
      reported before anything else; a null isActive fails when it is unboxed
      for the strategy call; otherwise the chosen strategy decides. */
  function Creation(strategies: map<CreationStrategyType, LinkCreationStrategy>,
                    rows: map<int, Link>, nextId: int,
                    userId: string, longUrl: string, shortUrl: Option<string>, isActive: Option<bool>,
                    title: Option<string>, now: Instant, draws: seq<seq<int>>, faults: seq<bool>): (r: Result<Link, LinkError>)
    requires WellKeyed(strategies) && InputsSuffice(strategies, draws, faults)
    ensures GetStrategyType(shortUrl) !in strategies ==>
      r == Err(IllegalState(NoStrategyMessage(GetStrategyType(shortUrl))))
    ensures r == Err(NullPointer) <==> GetStrategyType(shortUrl) in strategies && isActive.None?
    ensures r.Ok? ==>
      && isActive.Some?
      && (r.value.isCustom <==> shortUrl.Some? && !IsBlank(shortUrl.value))
      && (r.value.isCustom ==> r.value.shortUrl == shortUrl.value)
      && r.value.id == Some(nextId) && !HasCode(rows, r.value.shortUrl)
      && r.value.userId == userId && r.value.longUrl == longUrl && r.value.title == title
      && r.value.isActive == isActive.value && r.value.createdAt == Some(now)
  {
    var t := GetStrategyType(shortUrl);
    if t !in strategies then Err(IllegalState(NoStrategyMessage(t)))
    else if isActive.None? then Err(NullPointer)
    else StrategyCreation(strategies[t], rows, nextId, userId, longUrl, shortUrl, isActive.value, title, now, draws, faults)
  }

  /** chosenStrategy.createLink(...) inside the facade's transaction. */
  method RunStrategy(tx: Transaction, strategy: LinkCreationStrategy,
                     userId: string, longUrl: string, shortUrl: Option<string>, isActive: bool,
                     title: Option<string>, now: Instant, draws: seq<seq<int>>, faults: seq<bool>)
    returns (r: Result<CreateLinkResponse, LinkError>)
    requires tx.Valid() && tx.active
    requires strategy.Custom? ==> shortUrl.Some? && |faults| >= 1
    requires strategy.Random? ==>
      RandomShortUrlCreationStrategy.DrawsSuffice(strategy.urlLength, draws)
      && |faults| >= RandomShortUrlCreationStrategy.MAX_GENERATION_ATTEMPTS
    modifies tx, tx.table
    ensures tx.Valid() && tx.active && tx.snapshot == old(tx.snapshot)
    ensures tx.dispatched == old(tx.dispatched) && tx.outbox == old(tx.outbox) && tx.uncaught == old(tx.uncaught)
    ensures var c := StrategyCreation(strategy, old(tx.table.rows), old(tx.table.nextId),
                                      userId, longUrl, shortUrl, isActive, title, now, draws, faults);
      && (c.Err? ==> r == Err(c.error) && tx.table.rows == old(tx.table.rows) && tx.pending == old(tx.pending))
      && (c.Ok? ==> r == Ok(ToCreateLinkResponse(strategy.baseLinkUrl, c.value)))
      && (c.Ok? ==> tx.table.rows == old(tx.table.rows)[old(tx.table.nextId) := InsertedRow(c.value, old(tx.table.nextId), now)])
      && (c.Ok? ==> tx.pending == old(tx.pending) + [LinkCreatedApplicationEvent(c.value)])
  {
    match strategy {
      case Custom(reservedWords, baseLinkUrl) =>
        r := CustomShortUrlCreationStrategy.CreateLink(tx, reservedWords, baseLinkUrl, userId, longUrl,
                                                       shortUrl.value, isActive, title, now, faults[0]);
      case Random(urlLength, baseLinkUrl) =>
        var saves;
        r, saves := RandomShortUrlCreationStrategy.CreateLink(tx, urlLength, baseLinkUrl, userId, longUrl,
                                                              shortUrl, isActive, title, now, draws, faults);
    }
  }

  /** The chosen strategy's run and the end of the transaction: a commit
      when the strategy returns, a rollback when it throws. */
  method RunAndComplete(tx: Transaction, strategy: LinkCreationStrategy,
                        userId: string, longUrl: string, shortUrl: Option<string>, isActive: bool,
                        title: Option<string>, now: Instant, draws: seq<seq<int>>, faults: seq<bool>,
                        sendResult: SendResult)
    returns (r: Result<CreateLinkResponse, LinkError>)
    requires tx.Valid() && tx.active && tx.pending == [] && tx.snapshot == tx.table.rows
    requires strategy.Custom? ==> shortUrl.Some? && |faults| >= 1
    requires strategy.Random? ==>
      RandomShortUrlCreationStrategy.DrawsSuffice(strategy.urlLength, draws)
      && |faults| >= RandomShortUrlCreationStrategy.MAX_GENERATION_ATTEMPTS
    modifies tx, tx.table
    ensures tx.Valid() && !tx.active
    ensures var c := StrategyCreation(strategy, old(tx.table.rows), old(tx.table.nextId),
                                      userId, longUrl, shortUrl, isActive, title, now, draws, faults);
      && (c.Err? ==> r == Err(c.error) && tx.table.rows == old(tx.table.rows))
      && (c.Err? ==> tx.dispatched == old(tx.dispatched) && tx.outbox == old(tx.outbox) && tx.uncaught == old(tx.uncaught))
      && (c.Ok? ==> r == Ok(ToCreateLinkResponse(strategy.baseLinkUrl, c.value)))
      && (c.Ok? ==> tx.table.rows == old(tx.table.rows)[old(tx.table.nextId) := InsertedRow(c.value, old(tx.table.nextId), now)])
      && (c.Ok? ==> tx.dispatched == old(tx.dispatched) + [LinkCreatedApplicationEvent(c.value)])
      && (c.Ok? ==> tx.outbox == old(tx.outbox) + Flush(tx.wiring, tx.topicName, [LinkCreatedApplicationEvent(c.value)], [sendResult]).records)
      && (c.Ok? ==> tx.uncaught == old(tx.uncaught) + Flush(tx.wiring, tx.topicName, [LinkCreatedApplicationEvent(c.value)], [sendResult]).uncaught)
  {
    var created := RunStrategy(tx, strategy, userId, longUrl, shortUrl, isActive, title, now, draws, faults);
    if created.Err? {
      tx.Rollback();
      return created;
    }
    tx.Commit([sendResult]);
    r := created;
  }

  /** createLink, @Transactional: on success the row is committed and the
      created event is handed to the listener; on any exception the
      transaction rolls back, so the table is as before and no producer is
      called. What the listener does with the event never changes the response. */
  method CreateLink(tx: Transaction, strategies: map<CreationStrategyType, LinkCreationStrategy>,
                    userId: string, longUrl: string, shortUrl: Option<string>, isActive: Option<bool>,
                    title: Option<string>, now: Instant, draws: seq<seq<int>>, faults: seq<bool>,
                    sendResult: SendResult)
    returns (r: Result<CreateLinkResponse, LinkError>)
    requires tx.Valid() && !tx.active
    requires WellKeyed(strategies) && InputsSuffice(strategies, draws, faults)
    modifies tx, tx.table
    ensures tx.Valid() && !tx.active
    ensures var c := Creation(strategies, old(tx.table.rows), old(tx.table.nextId),
                              userId, longUrl, shortUrl, isActive, title, now, draws, faults);
      && (c.Err? ==> r == Err(c.error) && tx.table.rows == old(tx.table.rows))
      && (c.Err? ==> tx.dispatched == old(tx.dispatched) && tx.outbox == old(tx.outbox) && tx.uncaught == old(tx.uncaught))
      && (c.Ok? ==> r == Ok(ToCreateLinkResponse(strategies[GetStrategyType(shortUrl)].baseLinkUrl, c.value)))
      && (c.Ok? ==> tx.table.rows == old(tx.table.rows)[old(tx.table.nextId) := InsertedRow(c.value, old(tx.table.nextId), now)])
      && (c.Ok? ==> tx.dispatched == old(tx.dispatched) + [LinkCreatedApplicationEvent(c.value)])
      && (c.Ok? ==> tx.outbox == old(tx.outbox) + Flush(tx.wiring, tx.topicName, [LinkCreatedApplicationEvent(c.value)], [sendResult]).records)
      && (c.Ok? ==> tx.uncaught == old(tx.uncaught) + Flush(tx.wiring, tx.topicName, [LinkCreatedApplicationEvent(c.value)], [sendResult]).uncaught)
  {
    tx.Begin();
    var strategyType := GetStrategyType(shortUrl);
    if strategyType !in strategies {
      tx.Rollback();
      return Err(IllegalState(NoStrategyMessage(strategyType)));
    }
    if isActive.None? {
      tx.Rollback();
      return Err(NullPointer);
    }
    r := RunAndComplete(tx, strategies[strategyType], userId, longUrl, shortUrl, isActive.value,
                        title, now, draws, faults, sendResult);
  }

  /** Under the current wiring a created link is announced by exactly one
      record, keyed by its new id, when the broker takes it; when the broker
      fails, the listener's exception is all that is left, and the caller
      already has its response. */
  lemma CreatedLinkIsAnnounced(topicName: string, saved: Link, sendResult: SendResult)
    requires saved.id.Some? && saved.createdAt.Some?
    ensures var d := Flush(EventsPublisherWiring, topicName, [LinkCreatedApplicationEvent(saved)], [sendResult]);
      && (sendResult == Delivered ==>
            d.uncaught == [] && |d.records| == 1 && d.records[0].key == LongToString(saved.id.value)
            && Ok(d.records[0]) == LinkCreatedKafkaProducer.LinkCreatedRecord(topicName, saved))
      && (sendResult == Failed ==> d.records == [] && d.uncaught == [KafkaEventSending(KAFKA_SEND_FAILED_MESSAGE)])
      && (sendResult == WaitInterrupted ==> d.records == [] && d.uncaught == [Interrupted(KAFKA_SEND_INTERRUPTED_MESSAGE)])
  {
    var events := [LinkCreatedApplicationEvent(saved)];
    assert events[..0] == [];
  }
}
