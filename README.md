# Link lifecycle engine of the link-shortener link service

This project models the core of the link service of a URL shortener. The
service creates, updates, reads and deletes short links on behalf of users.
It keeps them in a PostgreSQL `links` table and announces every change as a
`LinkLifecycleEvent` protobuf record on a Kafka topic.

The model covers:

- **Links and requests** (`LinkModel`, `Dto`, `LinkMapper`): the `Link`
  record, the create and update requests, and the response and DTO mappings.
- **Normalising and checking user input** (`UrlSanitizer`,
  `ReservedWordsValidator`): a long URL gets `https://` when it lacks an
  http(s) scheme. A custom code is refused when it is a reserved word, or a
  reserved word followed by `/`, ignoring case.
- **Generating codes** (`ShortUrlGenerator`): a random code over a
  58-character alphabet that leaves out the look-alikes `0`, `O`, `l` and
  `I`.
- **The repository** (`JdbcLinkRepository.LinkTable`): a class that owns the
  table's rows (a map from id to `Link`) and the id sequence. Its methods
  save, find, update, delete and purge.
- **The creation strategies** (`CustomShortUrlCreationStrategy`,
  `RandomShortUrlCreationStrategy`, `LinkFacade`): the facade picks the
  custom strategy for a non-blank requested code and the random one
  otherwise. The random strategy makes up to five attempts.
- **The update, delete and read services** (`LinkManipulationService`,
  `LinkUpdateService`, `LinkRetriever`).
- **Transactions and events** (`Transactions`): a Spring transaction is a
  class that snapshots the rows at the start and queues application events.
  Commit hands the queued events, in order, to the after-commit listeners
  (`LinkEventsPublisher` or `KafkaIntegrationEvents`). Rollback restores the
  rows and drops the queue.
- **The Kafka producers** (`LinkCreatedKafkaProducer`,
  `LinkUpdatedKafkaProducer`, `LinkDeletedKafkaProducer`,
  `KafkaProducerService`): functions from a link to the `ProducerRecord`.
  What a failed send does differs per producer: it is rethrown, swallowed or
  ignored.

Modelling conventions:

- A Java `null` becomes `Option`.
- A thrown exception becomes `Err` of `Exceptions.LinkError`, with the
  exception's message text.
- `java.time.Instant` is an integer count of nanoseconds since the epoch.
- Everything outside the process becomes a parameter of the operation that
  uses it:
  - the clock (`now`, and in `update` the repository's own clock reading `repoNow`, a second reading of the application's `java.time.Clock`);
  - the `SecureRandom` draws;
  - whether a JDBC call fails for a reason other than a duplicate code (`fault`);
  - what the broker does with a send (`SendResult`).

At this commit the repository's sources mix two revisions of the creation
path. The model follows one consistent version, as follows:

- **Custom strategy.** It runs `ReservedWordsValidator.validate` before it
  saves, as the strategy's tests expect.
  `CustomShortUrlCreationStrategy`'s constructor takes no validator.
- **Title.** Both strategies and the facade take a `title`, and
  `LinkMapper.toLink` takes `isCustom` and `title`, as
  `RandomShortUrlCreationStrategy.java` and the repository's `is_custom`
  column require. `LinkCreationStrategy.java` and `LinkMapper.java`
  declare fewer parameters.
- **`isCustom` on `Link`.** `Link` carries `isCustom`, which the repository
  writes and reads. `Link.java` declares ten components. The update
  services keep the existing link's `isCustom`.

## Model

| member | source | states |
|---|---|---|
| LinkModel.Link.WithId | src/main/java/pl/bpiatek/linkshortenerlinkservice/link/Link.java:17-22 | the copy has the generated id and every other component of the original, so replacing its id by the old one gives the original back |
| LinkModel.Link.WithIdAndCreatedAt | src/main/java/pl/bpiatek/linkshortenerlinkservice/link/JdbcLinkRepository.java:52 | the returned link has the generated id and the stored creation time; every other component is the caller's |
| Dto.CreateLinkRequest.IsActive | src/main/java/pl/bpiatek/linkshortenerlinkservice/api/dto/CreateLinkRequest.java:20-22 | an absent isActive means active; a present one is returned as given |
| Dto.TrimStart | src/main/java/pl/bpiatek/linkshortenerlinkservice/api/dto/CreateLinkRequest.java:9 | the result is a suffix of the input that is empty or starts above U+0020, and every dropped character is at or below U+0020 (the leading half of String.trim(), which @NotBlank applies) |
| Dto.TrimEnd | src/main/java/pl/bpiatek/linkshortenerlinkservice/api/dto/CreateLinkRequest.java:9 | the result is a prefix of the input that is empty or ends above U+0020, and every dropped character is at or below U+0020 (the trailing half of String.trim()) |
| Dto.NotBlank | src/main/java/pl/bpiatek/linkshortenerlinkservice/api/dto/CreateLinkRequest.java:9 | @NotBlank on longUrl: the value is present and not empty after String.trim() |
| Dto.NotBlankIff | src/main/java/pl/bpiatek/linkshortenerlinkservice/api/dto/CreateLinkRequest.java:9 | a value is @NotBlank exactly when it is present and has some character above U+0020 |
| Dto.SizeAtMost | src/main/java/pl/bpiatek/linkshortenerlinkservice/api/dto/CreateLinkRequest.java:11-16 | @Size(max): an absent value passes, a present one has at most the maximum length (1024 for longUrl, 255 for title) |
| Dto.MatchesShortUrlPattern | src/main/java/pl/bpiatek/linkshortenerlinkservice/api/dto/CreateLinkRequest.java:13 | @Pattern on shortUrl: absent, empty, or only ASCII letters, digits, '-' and '_' |
| Dto.IsValid | src/main/java/pl/bpiatek/linkshortenerlinkservice/api/dto/CreateLinkRequest.java:9-16 | all the declared constraints of the request except @ValidUrl hold |
| Dto.PatternExcludesSlashAndWhitespace | src/main/java/pl/bpiatek/linkshortenerlinkservice/api/dto/CreateLinkRequest.java:13 | a code accepted by the shortUrl pattern contains no '/' and no white space |
| LinkMapper.ToCreateLinkResponse | src/main/java/pl/bpiatek/linkshortenerlinkservice/link/LinkMapper.java:13-15 | the short URL is the base URL followed by the code; the long URL is passed through |
| LinkMapper.ResponseShortUrlsDistinct | src/main/java/pl/bpiatek/linkshortenerlinkservice/link/LinkMapper.java:14 | under one base URL, links with different codes get different short URLs |
| LinkMapper.ToLink | src/main/java/pl/bpiatek/linkshortenerlinkservice/link/LinkMapper.java:17-19 | the unsaved link has no id, notes or timestamps and carries exactly the given user, code, URL, flags and title |
| LinkMapper.ToLinkDto | src/main/java/pl/bpiatek/linkshortenerlinkservice/api/dto/LinkDto.java:5-16 | each DTO field is the link's field; the id is String.valueOf of the link id |
| LinkMapper.LinkDtoIdentifiesLink | src/main/java/pl/bpiatek/linkshortenerlinkservice/api/dto/LinkDto.java:6 | two links with the same DTO id have the same id |
| UrlSanitizer.MatchesSchemePatternIff | src/main/java/pl/bpiatek/linkshortenerlinkservice/link/UrlSanitizer.java:10 | the regex `^https?://.*` matches exactly when the URL starts with `http://` or `https://` and has no line terminator |
| UrlSanitizer.PrependProtocolIfMissing | src/main/java/pl/bpiatek/linkshortenerlinkservice/link/UrlSanitizer.java:8-14 | null in, null out; otherwise the URL unchanged exactly when the regex matches, else `https://` followed by the URL; the result always starts with an http(s) scheme |
| UrlSanitizer.PrependProtocolIdempotentIff | src/main/java/pl/bpiatek/linkshortenerlinkservice/link/UrlSanitizer.java:10-13 | sanitising twice equals sanitising once exactly when the URL has no line terminator |
| UrlSanitizer.NoSchemeUnlessLowercaseH | src/main/java/pl/bpiatek/linkshortenerlinkservice/link/UrlSanitizer.java:10-11 | a URL not starting with a lower-case 'h' always gets `https://` prepended |
| UrlSanitizer.OtherSchemesGetHttpsPrepended | src/main/java/pl/bpiatek/linkshortenerlinkservice/link/UrlSanitizer.java:10-11 | `HTTP://x`, `ftp://x` and other schemes are kept and get `https://` prepended (case-sensitive check) |
| ShortUrlGenerator.AlphabetLiteral | src/main/java/pl/bpiatek/linkshortenerlinkservice/link/ShortUrlGenerator.java:7 | the alphabet is the 58-character ALPHANUMERIC_CHARS literal |
| ShortUrlGenerator.AlphabetIndex | src/main/java/pl/bpiatek/linkshortenerlinkservice/link/ShortUrlGenerator.java:7 | the alphabet has 58 characters, and each one's index is its position |
| ShortUrlGenerator.IndexOfFinds | src/main/java/pl/bpiatek/linkshortenerlinkservice/link/ShortUrlGenerator.java:7 | every alphabet character sits at the position its index names |
| ShortUrlGenerator.AlphabetMembership | src/main/java/pl/bpiatek/linkshortenerlinkservice/link/ShortUrlGenerator.java:7 | a character is in the alphabet exactly when it is an ASCII letter other than l, O and I, or a digit from 1 to 9 |
| ShortUrlGenerator.AlphabetDistinct | src/main/java/pl/bpiatek/linkshortenerlinkservice/link/ShortUrlGenerator.java:7 | the 58 characters are pairwise distinct, so every draw picks a different character |
| ShortUrlGenerator.AlphabetLeavesOutLookalikes | src/main/java/pl/bpiatek/linkshortenerlinkservice/link/ShortUrlGenerator.java:7 | none of `0`, `O`, `l`, `I` is in the alphabet, while `1` is |
| ShortUrlGenerator.CodeFor | src/main/java/pl/bpiatek/linkshortenerlinkservice/link/ShortUrlGenerator.java:18-21 | the code has one character per draw, the alphabet character at the drawn index, so every character is in the alphabet |
| ShortUrlGenerator.Generate | src/main/java/pl/bpiatek/linkshortenerlinkservice/link/ShortUrlGenerator.java:16-24 | a negative length fails with NegativeArraySizeException; otherwise the code is the alphabet characters picked by the first urlLength draws, in order |
| ShortUrlGenerator.GeneratedCodeShape | src/main/java/pl/bpiatek/linkshortenerlinkservice/link/ShortUrlGenerator.java:18-21 | a generated code has the requested length and only alphabet characters, hence no look-alikes and no white space, and it passes the request's shortUrl pattern |
| ShortUrlGenerator.CodeForDrawsForRoundTrip | src/main/java/pl/bpiatek/linkshortenerlinkservice/link/ShortUrlGenerator.java:19-21 | every code over the alphabet is produced by exactly one sequence of draws |
| ReservedWordsValidator.Validate | src/main/java/pl/bpiatek/linkshortenerlinkservice/link/ReservedWordsValidator.java:15-28 | a null code and an empty reserved set are accepted; otherwise it throws exactly when some reserved word matches, with the message quoting the original code |
| ReservedWordsValidator.FirstMatchFindsAny | src/main/java/pl/bpiatek/linkshortenerlinkservice/link/ReservedWordsValidator.java:22-27 | the loop finds a match exactly when one exists in the words it visits |
| ReservedWordsValidator.IterationOrderIrrelevant | src/main/java/pl/bpiatek/linkshortenerlinkservice/link/ReservedWordsValidator.java:22-27 | for any iteration order of the set, the loop throws exactly when the validator rejects |
| ReservedWordsValidator.MatchesIgnoresCase | src/main/java/pl/bpiatek/linkshortenerlinkservice/link/ReservedWordsValidator.java:20-24 | lower-casing the code or the reserved word does not change whether they match |
| ReservedWordsValidator.ValidateIgnoresCase | src/main/java/pl/bpiatek/linkshortenerlinkservice/link/ReservedWordsValidator.java:20-25 | a code is rejected exactly when its lower-case form is, and exactly when some reserved word equals it, or prefixes it before a '/', ignoring case |
| ReservedWordsValidator.ReservedWordAndPathsRejected | src/main/java/pl/bpiatek/linkshortenerlinkservice/link/ReservedWordsValidator.java:24-25 | a reserved word, and that word followed by '/' and anything, are rejected |
| ReservedWordsValidator.ExtensionWithoutSlashAccepted | src/main/java/pl/bpiatek/linkshortenerlinkservice/link/ReservedWordsValidator.java:24 | a code that only begins with a reserved word (such as `dashboards`) is accepted when nothing else matches |
| ReservedWordsValidator.PatternCodesRejectedOnlyByEquality | src/main/java/pl/bpiatek/linkshortenerlinkservice/link/ReservedWordsValidator.java:24 | for a code that passes the request pattern, rejection means it equals a reserved word up to case |
| JavaLang.ToLowerCase | src/main/java/pl/bpiatek/linkshortenerlinkservice/link/ReservedWordsValidator.java:20 | lower-casing keeps the length and maps each character on its own |
| JavaLang.NatToStringRoundTrip | src/main/java/pl/bpiatek/linkshortenerlinkservice/link/LinkCreatedKafkaProducer.java:34 | the decimal rendering of an id parses back to the id |
| JavaLang.ValueOfInjective | src/main/java/pl/bpiatek/linkshortenerlinkservice/link/LinkCreatedKafkaProducer.java:49 | different ids, or an id and null, never render to the same record key |
| JdbcLinkRepository.ProvidedDateOr | src/main/java/pl/bpiatek/linkshortenerlinkservice/link/JdbcLinkRepository.java:130-134 | a provided date is kept; a missing one becomes the default |
| JdbcLinkRepository.InsertedRowDefaults | src/main/java/pl/bpiatek/linkshortenerlinkservice/link/JdbcLinkRepository.java:34-47 | the stored row has the new id; missing created and updated times become now, a missing expiry becomes now plus 7 days; the other columns are the link's |
| JdbcLinkRepository.SavedLinkEqualsRowIff | src/main/java/pl/bpiatek/linkshortenerlinkservice/link/JdbcLinkRepository.java:45-52 | the link save returns equals the stored row exactly when the caller supplied updatedAt and expiresAt |
| JdbcLinkRepository.SavedRowIsInsertedRow | src/main/java/pl/bpiatek/linkshortenerlinkservice/link/JdbcLinkRepository.java:35-52 | re-inserting the returned link would store the same row, so the returned link and the row agree on every column the caller gave |
| JdbcLinkRepository.UpdatedRowColumns | src/main/java/pl/bpiatek/linkshortenerlinkservice/link/JdbcLinkRepository.java:77-92 | update writes long URL, flag and title from the link and the repository's own clock reading to updated_at, and keeps id, owner, code, notes, creation and expiry |
| JdbcLinkRepository.LinkTable.Save | src/main/java/pl/bpiatek/linkshortenerlinkservice/link/JdbcLinkRepository.java:33-53 | a taken code fails with a duplicate error and a storage fault with a failure, both leaving the table unchanged; otherwise the row is inserted under the next id and the link returned with that id and creation time |
| JdbcLinkRepository.LinkTable.FindByShortUrl | src/main/java/pl/bpiatek/linkshortenerlinkservice/link/JdbcLinkRepository.java:55-64 | a row is returned exactly when one has that code, and it is that row |
| JdbcLinkRepository.LinkTable.FindByUserId | src/main/java/pl/bpiatek/linkshortenerlinkservice/link/JdbcLinkRepository.java:66-74 | exactly the user's rows, each once, in ascending id order |
| JdbcLinkRepository.LinkTable.FindByIdAndUserId | src/main/java/pl/bpiatek/linkshortenerlinkservice/link/JdbcLinkRepository.java:97-107 | the row with that id, present exactly when it exists and belongs to the user |
| JdbcLinkRepository.LinkTable.Update | src/main/java/pl/bpiatek/linkshortenerlinkservice/link/JdbcLinkRepository.java:76-95 | only the row with the link's id is rewritten, with the updated columns; no other row and no id changes |
| JdbcLinkRepository.LinkTable.DeleteByIdAndUserId | src/main/java/pl/bpiatek/linkshortenerlinkservice/link/JdbcLinkRepository.java:109-113 | the row goes exactly when it exists and belongs to the user; every other row stays |
| JdbcLinkRepository.LinkTable.DeleteDeactivatedCustomLinksOlderThan | src/main/java/pl/bpiatek/linkshortenerlinkservice/link/JdbcLinkRepository.java:115-128 | removes exactly the inactive custom links updated before the threshold and returns how many |
| JdbcLinkRepository.PurgeAccounting | src/main/java/pl/bpiatek/linkshortenerlinkservice/link/JdbcLinkRepository.java:115-128 | the rows left plus the rows purged are the rows before, and no row left is purgeable |
| JdbcLinkRepository.PurgeIdempotent | src/main/java/pl/bpiatek/linkshortenerlinkservice/link/JdbcLinkRepository.java:115-128 | a second purge with the same threshold removes nothing |
| LinkLifecycleEvents.ToTimestamp | src/main/java/pl/bpiatek/linkshortenerlinkservice/link/LinkCreatedKafkaProducer.java:39-41 | seconds and nanos denote the instant, with nanos within one second |
| LinkLifecycleEvents.TimestampRoundTrip | src/main/java/pl/bpiatek/linkshortenerlinkservice/link/LinkCreatedKafkaProducer.java:39-41 | instant to Timestamp and back is the identity, and so is the reverse on normalised Timestamps |
| LinkLifecycleEvents.TitleOrEmpty | src/main/java/pl/bpiatek/linkshortenerlinkservice/link/LinkCreatedKafkaProducer.java:42 | an absent title is sent as "", a present one as itself |
| LinkCreatedKafkaProducer.LinkCreatedRecord | src/main/java/pl/bpiatek/linkshortenerlinkservice/link/LinkCreatedKafkaProducer.java:32-50 | a missing creation time throws NullPointerException; otherwise the record goes to the topic with key and linkId String.valueOf(id), the link's fields, its creation instant and the source header |
| LinkCreatedKafkaProducer.SendLinkCreatedEvent | src/main/java/pl/bpiatek/linkshortenerlinkservice/link/LinkCreatedKafkaProducer.java:52-67 | a delivered record is sent and nothing is thrown; a failed send throws KafkaEventSendingException, an interrupted wait the interrupted error, with their messages |
| LinkCreatedKafkaProducer.CreatedRecordDeterminesLink | src/main/java/pl/bpiatek/linkshortenerlinkservice/link/LinkCreatedKafkaProducer.java:33-49 | two links with the same record agree on id, owner, code, URL, flag and creation time, and on the title except that null and "" are sent alike |
| LinkUpdatedKafkaProducer.LinkUpdatedRecord | src/main/java/pl/bpiatek/linkshortenerlinkservice/link/LinkUpdatedKafkaProducer.java:28-46 | a missing update time throws NullPointerException; otherwise the LinkUpdated record carries the link's fields and update instant |
| LinkUpdatedKafkaProducer.SendLinkUpdatedEvent | src/main/java/pl/bpiatek/linkshortenerlinkservice/link/LinkUpdatedKafkaProducer.java:28-61 | a missing update time throws NullPointerException; a failed or interrupted send is swallowed; the record is sent exactly when delivered |
| LinkDeletedKafkaProducer.LinkDeletedRecord | src/main/java/pl/bpiatek/linkshortenerlinkservice/link/LinkDeletedKafkaProducer.java:33-48 | the LinkDeleted record carries id, owner and code, and the deletion time is exactly the clock reading |
| LinkDeletedKafkaProducer.LinkDeletedRecordAsWritten | src/main/java/pl/bpiatek/linkshortenerlinkservice/link/LinkDeletedKafkaProducer.java:38-40 | with two clock readings the stamp is the first reading's second plus the second reading's nanosecond; with one reading it is the record above |
| LinkDeletedKafkaProducer.TornDeletedAtPrecedesClock | src/main/java/pl/bpiatek/linkshortenerlinkservice/link/LinkDeletedKafkaProducer.java:38-40 | when the second reading is not earlier than the first but its nanosecond-of-second is smaller than the first's, the stamp lies before the first reading |
| LinkDeletedKafkaProducer.TornDeletedAtExample | src/main/java/pl/bpiatek/linkshortenerlinkservice/link/LinkDeletedKafkaProducer.java:38-40 | readings 0.999999999 s and 1.000000001 s give the stamp 0.000000001 s |
| LinkDeletedKafkaProducer.DeletedRecordIgnoresContent | src/main/java/pl/bpiatek/linkshortenerlinkservice/link/LinkDeletedKafkaProducer.java:34-41 | links that agree on id, owner and code give the same record |
| LinkDeletedKafkaProducer.SendLinkDeletedEvent | src/main/java/pl/bpiatek/linkshortenerlinkservice/link/LinkDeletedKafkaProducer.java:50-62 | never throws; the record is sent exactly when delivered |
| KafkaProducerService.SendLinkCreatedEvent | src/main/java/pl/bpiatek/linkshortenerlinkservice/link/KafkaProducerService.java:32-69 | the record is the LinkCreated producer's; a failed send is only logged and never reaches the caller |
| KafkaProducerService.ProducersDifferOnlyInFailurePolicy | src/main/java/pl/bpiatek/linkshortenerlinkservice/link/KafkaProducerService.java:52-68 | both created-event producers send the same record when delivered; only the direct producer throws on failure |
| LinkEventsPublisher.Handle | src/main/java/pl/bpiatek/linkshortenerlinkservice/link/LinkEventsPublisher.java:17-27 | a created event goes to the created producer and an updated event to the updated producer; a deleted event has no handler and sends nothing |
| KafkaIntegrationEvents.Handle | src/main/java/pl/bpiatek/linkshortenerlinkservice/link/KafkaIntegrationEvents.java:15-19 | only a created event is handled, through the fire-and-forget service, which throws only NullPointerException, for a link without a creation time |
| Transactions.Flush | src/main/java/pl/bpiatek/linkshortenerlinkservice/link/LinkEventsPublisher.java:17-27 | after commit, at most one record and one uncaught exception per event, and never a LinkDeleted record |
| Transactions.FlushDeliversInOrder | src/main/java/pl/bpiatek/linkshortenerlinkservice/link/LinkEventsPublisher.java:17-27 | with every send delivered, every created or updated event yields its record, in commit order, keyed by its link's id, and nothing is thrown |
| Transactions.DeletedEventsAreNotPublished | src/main/java/pl/bpiatek/linkshortenerlinkservice/link/LinkEventsPublisher.java:7-28 | deletion events reach no topic and throw nothing |
| Transactions.IntegrationWiringSendsOnlyCreated | src/main/java/pl/bpiatek/linkshortenerlinkservice/link/KafkaIntegrationEvents.java:15-19 | through the integration listener only LinkCreated records are sent, at most one per created event, and no exception escapes when every created link has a creation time |
| Transactions.Transaction.Begin | src/main/java/pl/bpiatek/linkshortenerlinkservice/link/LinkFacade.java:28 | opens the transaction with a snapshot of the rows and an empty event queue |
| Transactions.Transaction.PublishEvent | src/main/java/pl/bpiatek/linkshortenerlinkservice/link/CustomShortUrlCreationStrategy.java:24 | appends the event to the queue and changes nothing else |
| Transactions.Transaction.Commit | src/main/java/pl/bpiatek/linkshortenerlinkservice/link/LinkEventsPublisher.java:17-18 | keeps the rows; the queued events are dispatched in order and their records and uncaught exceptions appended |
| Transactions.Transaction.Rollback | src/main/java/pl/bpiatek/linkshortenerlinkservice/link/LinkFacade.java:28 | restores the rows of the snapshot, keeps the id sequence and dispatches nothing |
| CustomShortUrlCreationStrategy.CustomCreation | src/main/java/pl/bpiatek/linkshortenerlinkservice/link/CustomShortUrlCreationStrategy.java:19-30 | a reserved code fails with its message before any save; a taken code fails with ShortCodeAlreadyExistsException; success exactly when neither applies and storage works, with the requested code, isCustom set and the next id |
| CustomShortUrlCreationStrategy.CreateLink | src/main/java/pl/bpiatek/linkshortenerlinkservice/link/CustomShortUrlCreationStrategy.java:19-30 | one save attempt; on success the saved row, exactly one created event carrying the saved link, and the response; on failure rows and queue unchanged |
| CustomShortUrlCreationStrategy.StoredCodeIsFreeAndAllowed | src/main/java/pl/bpiatek/linkshortenerlinkservice/link/CustomShortUrlCreationStrategy.java:20-22 | a successful creation stores an allowed code that no row had, under a fresh id, and keeps codes unique |
| RandomShortUrlCreationStrategy.StopAttempt | src/main/java/pl/bpiatek/linkshortenerlinkservice/link/RandomShortUrlCreationStrategy.java:28-37 | the loop stops at the first attempt that does not collide, or after the last one |
| RandomShortUrlCreationStrategy.RandomCreation | src/main/java/pl/bpiatek/linkshortenerlinkservice/link/RandomShortUrlCreationStrategy.java:27-43 | a negative length fails at once; it fails with UnableToGenerateUniqueShortUrlException exactly when all five codes collide; it fails with the storage exception exactly when the attempt that stops the loop faults; it succeeds exactly when that attempt neither collides nor faults, and success stores the code generated at that stopping attempt, which no row had, is made of alphabet characters only and is not custom |
| RandomShortUrlCreationStrategy.RandomCodeHasNoLookalikes | src/main/java/pl/bpiatek/linkshortenerlinkservice/link/RandomShortUrlCreationStrategy.java:29-31 | a stored random code has none of 0, O, l and I, no white space, and passes the request's shortUrl pattern |
| RandomShortUrlCreationStrategy.SaveCalls | src/main/java/pl/bpiatek/linkshortenerlinkservice/link/RandomShortUrlCreationStrategy.java:28-37 | at most five saves, and at least one for a valid length |
| RandomShortUrlCreationStrategy.SaveAttempt | src/main/java/pl/bpiatek/linkshortenerlinkservice/link/RandomShortUrlCreationStrategy.java:31-37 | one save of the generated code: a collision changes nothing and continues the loop; a storage failure ends it with nothing changed; a success inserts the row under the next id and registers one created event |
| RandomShortUrlCreationStrategy.CreateLink | src/main/java/pl/bpiatek/linkshortenerlinkservice/link/RandomShortUrlCreationStrategy.java:27-43 | the loop produces RandomCreation's outcome with SaveCalls saves; exactly one created event on success; nothing changes on failure |
| LinkFacade.GetStrategyType | src/main/java/pl/bpiatek/linkshortenerlinkservice/link/LinkFacade.java:39-45 | CUSTOM exactly when the code is present and not blank, RANDOM otherwise |
| LinkFacade.ValidRequestCreation | src/main/java/pl/bpiatek/linkshortenerlinkservice/link/LinkFacade.java:29-40 | for a request that passed bean validation, passed through its accessors: no unboxing NullPointerException, CUSTOM exactly for a non-empty code (which has no '/' or white space), and a created link has a not-blank long URL of at most 1024 characters and a title of at most 255 |
| LinkFacade.ValidRequestSelectsCustomIff | src/main/java/pl/bpiatek/linkshortenerlinkservice/link/LinkFacade.java:40 | for a code that passes the request pattern, CUSTOM exactly when it is present and non-empty |
| LinkFacade.LinkCreationStrategy.GetType | src/main/java/pl/bpiatek/linkshortenerlinkservice/link/CustomShortUrlCreationStrategy.java:32-35 | each strategy reports its own type |
| LinkFacade.BuildStrategies | src/main/java/pl/bpiatek/linkshortenerlinkservice/link/LinkFacade.java:22-25 | the map is built exactly when no two strategies share a type; it maps each type present to its strategy; otherwise IllegalStateException "Duplicate key …" |
| LinkFacade.StrategyCreation | src/main/java/pl/bpiatek/linkshortenerlinkservice/link/LinkFacade.java:36 | neither strategy's createLink ends in NullPointerException, so the facade's only one is the unboxing of a null isActive |
| LinkFacade.Creation | src/main/java/pl/bpiatek/linkshortenerlinkservice/link/LinkFacade.java:28-37 | a missing strategy fails with IllegalStateException; NullPointerException results exactly when the strategy exists and isActive is null (no strategy throws it); success carries the chosen strategy's link |
| LinkFacade.RunStrategy | src/main/java/pl/bpiatek/linkshortenerlinkservice/link/LinkFacade.java:36 | runs the chosen strategy inside the open transaction with that strategy's outcome |
| LinkFacade.RunAndComplete | src/main/java/pl/bpiatek/linkshortenerlinkservice/link/LinkFacade.java:28-37 | the chosen strategy runs in the open transaction; when it throws the rows are restored and nothing is dispatched, otherwise the transaction commits and the created event is dispatched |
| LinkFacade.CreateLink | src/main/java/pl/bpiatek/linkshortenerlinkservice/link/LinkFacade.java:28-37 | one transaction: on success the row is committed and its created event dispatched after commit; on any failure rows are restored and no event reaches a producer |
| LinkFacade.CreatedLinkIsAnnounced | src/main/java/pl/bpiatek/linkshortenerlinkservice/link/LinkEventsPublisher.java:17-21 | a committed created link is sent as its LinkCreated record when delivered; a failed send surfaces as an uncaught exception, not a rollback |
| LinkManipulationService.MergeUpdate | src/main/java/pl/bpiatek/linkshortenerlinkservice/link/LinkManipulationService.java:37-52 | a supplied URL is sanitised, title and flag taken when supplied; id, owner, code, notes, creation, expiry kept; updatedAt is now |
| LinkManipulationService.EmptyRequestOnlyTouchesUpdatedAt | src/main/java/pl/bpiatek/linkshortenerlinkservice/link/LinkManipulationService.java:37-52 | an empty request changes only updatedAt |
| LinkManipulationService.MergeUpdateComposes | src/main/java/pl/bpiatek/linkshortenerlinkservice/link/LinkManipulationService.java:37-52 | two updates in a row equal one combined update, and repeating a request at the same instant changes nothing more |
| LinkManipulationService.StoredRowIsEventLinkIff | src/main/java/pl/bpiatek/linkshortenerlinkservice/link/LinkManipulationService.java:50-56 | the stored row equals the link in the event exactly when the service's clock reading and the repository's own clock reading agree |
| LinkManipulationService.Update | src/main/java/pl/bpiatek/linkshortenerlinkservice/link/LinkManipulationService.java:31-59 | a missing or foreign link fails with LinkNotFoundException and changes nothing; otherwise only that row is rewritten with the repository's own clock reading, one updated event carrying the merged link is dispatched at commit, and the DTO of the merged link is returned |
| LinkManipulationService.DeleteLink | src/main/java/pl/bpiatek/linkshortenerlinkservice/link/LinkManipulationService.java:61-69 | a missing or foreign link fails and changes nothing; otherwise only that row is removed and one deleted event carrying the row as it was is dispatched at commit |
| LinkUpdateService.MergeUpdate | src/main/java/pl/bpiatek/linkshortenerlinkservice/link/LinkUpdateService.java:34-45 | like the other service but a supplied URL is taken verbatim |
| LinkUpdateService.ServicesAgreeIff | src/main/java/pl/bpiatek/linkshortenerlinkservice/link/LinkUpdateService.java:37 | the two services' merges agree exactly when no URL is supplied or it already has an http(s) scheme |
| LinkUpdateService.Update | src/main/java/pl/bpiatek/linkshortenerlinkservice/link/LinkUpdateService.java:29-52 | same outcomes as the other service's update, with the verbatim merge |
| LinkRetriever.GetLink | src/main/java/pl/bpiatek/linkshortenerlinkservice/link/LinkRetriever.java:16-20 | the DTO of the user's link exactly when it exists and is theirs; otherwise LinkNotFoundException with its message |
| LinkRetriever.GetLinkReturnsRequestedId | src/main/java/pl/bpiatek/linkshortenerlinkservice/link/LinkRetriever.java:17-18 | the returned DTO's id is the requested id |

## Findings

| source | as written | input that shows it | evidently intended | confidence | as-written member | corrected member |
|---|---|---|---|---|---|---|
| src/main/java/pl/bpiatek/linkshortenerlinkservice/link/LinkDeletedKafkaProducer.java:38-40 | deletedAt takes its seconds from one `clock.instant()` call and its nanos from a second call | readings 0.999999999 s then 1.000000001 s stamp 0.000000001 s, before both readings | one clock reading split into seconds and nanos, so the stamp is that instant | medium, not executed | LinkDeletedKafkaProducer.LinkDeletedRecordAsWritten, LinkDeletedKafkaProducer.TornDeletedAtExample | LinkDeletedKafkaProducer.LinkDeletedRecord |

## Left out

- Kafka, PostgreSQL and Spring are not modelled. That covers serialisation, partitions and offsets, SQL text, JDBC type conversion, logging and the `ContextSnapshot` thread-local propagation. Their observable results are parameters: the broker's `SendResult`, a storage `fault`, and the clock readings.
- Threads: `@Async` listeners run on another thread after commit. The model dispatches the queued events in order at commit and collects what they throw in `uncaught`. Interleavings between transactions are not modelled.
- `SecureRandom` is a sequence of draws per attempt, each in the alphabet's range.
- Precision: PostgreSQL stores microseconds, so read-back timestamps lose the last three digits. The model stores the instant unchanged.
- PostgreSQL aborts a transaction after a unique violation, so the random strategy's retries inside the facade's transaction would fail there. The model treats a collision as leaving the table and transaction usable.
- A failed insert consumes a PostgreSQL sequence value. The model advances the id only on success. Rollback keeps the sequence, as PostgreSQL does.
- Null ids, user ids and URLs are not modelled; these are `int` and `string`. A null in `Map.of` throws NullPointerException. A NOT NULL violation would also become a DataIntegrityViolationException, which the custom strategy turns into ShortCodeAlreadyExistsException. Nulls are modelled where the code handles or forwards them: the requested code, the title, the update request fields, isActive and the timestamps.
- Case mapping: `toLowerCase` is ASCII only. Locale-specific and non-ASCII mappings are not modelled.
- String lengths are counted in Unicode scalar values, not UTF-16 units. `@Size` counts differ for characters outside the Basic Multilingual Plane.
- The `@ValidUrl` constraint wraps Apache Commons `UrlValidator`, which is not part of this model.
- `LinkMapper.java` has no `toLinkDto`, which the retriever and the update services call. ToLinkDto copies the fields and renders the id with `String.valueOf`.
- `LinkFacade.BuildStrategies`: the error message is stated only up to its "Duplicate key <TYPE>" part. Java's message goes on to print the two strategy objects, whose `toString` is not modelled.
- `JdbcLinkRepository.LinkTable.FindByUserId`: returns rows in ascending id order. The SQL has no ORDER BY, so the database's order is unspecified; the model fixes one.
- The application event records and the listener wiring (which of `LinkEventsPublisher` and `KafkaIntegrationEvents` is a bean) are not part of this model. The events wrap the link, and the wiring is a parameter of the transaction.
- The deleted event has no listener in either wiring, so `LinkDeletedKafkaProducer` is never reached after commit. It is modelled on its own.
- `LinkCleanupScheduler`, the REST controllers, `GlobalExceptionHandler` and the Spring configuration are not part of this model.
- The metric counter and `trace-id` header that some producer tests expect are not produced by `KafkaProducerService`, so they are not modelled.
- The messages are modelled verbatim, including "Short ink" in ShortCodeAlreadyExistsException and the "PasswordReset" wording of the created producer's errors.
