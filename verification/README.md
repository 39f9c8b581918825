# AegisFlow in Dafny

AegisFlow takes security events in from connectors, stores and normalises them, runs detection rules
over them, opens alerts and incidents, and keeps knowledge documents for its assistant. This project
models the parts of it that are hardest to get right and proves what they promise, for all inputs
and for all runs. `dafny verify dfyconfig.toml` checks everything.

There are two kinds of model.

**Codecs and text.** The canonical JSON serialiser behind fingerprints and idempotency hashes, the
Base32 codec of TOTP secrets (section 6 of RFC 4648), the CSV reader (compare section 2 of RFC 4180)
and the records it feeds, the chunker of knowledge documents, and the masker of event attributes with
the ingress limits in front of it. A loop of the source is a method with that loop, proved against a
specification function; the laws are about the specification.

**Transactions.** Refresh-token sessions, incidents, knowledge indexing, the outbox, ingress, raw
events and detection. The tables are the fields of a class, and each committed transaction or
separately committed statement is a method. A method's `ensures` equates the whole new state with a
step function (`Next`, `Apply`, `Reception`) of the old one; the outbox methods work on many rows, and
`ClaimBatchIsSteps` and `PublishIsRun` say which steps they take of each. Where one operation of the source
spans several transactions, reads before a guarded write, or calls to other systems in between, it is
several steps, and `Run` lets the steps of all operations interleave in any order. The laws hold of
every run. Two more models, the event list and the rate limiter, are of the same kind but simpler.

Modules come in pairs: `x.dfy` has the model, `x_laws.dfy` what is proved of it. Where a model has more laws, `x_history.dfy`
says what its tables tell of the run behind them, `masking_limits.dfy` what exactly is refused, and
`canonical_json_text.dfy` what the canonical text looks like. Laws name the fields, limits and texts
of the source themselves, not by the functions of the model.

## Assumptions

- Digests and HMACs are injective on the bytes they are given, and a text is given as UTF-8; encryption
  is a parameter.
- Transactions run at PostgreSQL's default isolation, READ COMMITTED. What is one step here is so
  because row locks, unique keys or advisory locks make it so in the source. In
  `rotateRefreshToken`, consuming a token and inserting its child is one step: the rotation also
  updates the session row, and every revocation that can meet a live token first updates that row
  and then the tokens, so a revocation sees the child, or comes first and makes the consumption fail,
  or one of the two is aborted as a deadlock. In `recordIngress`, both advisory locks are held to the end of
  the transaction.
- Times are integers in milliseconds. Clocks of different processes are unrelated, except that the
  trace of the rate limiter is in order of time, and that around one incident there is one clock,
  which does not run backwards; the times that are written were sampled from it earlier.
- A text is a sequence of UTF-16 code units, except in the modules that only compare, cut and trim
  text, where it is a `string`.
- `localeCompare` is any total preorder, since it may call different keys equal.

## What turned out otherwise than expected

Where the code and its documents, or an obvious reading of it, disagree, the model follows the code.
Each point has a lemma with the exact condition, or with a run that shows it.

- The canonical text is free of key order exactly when no object has two keys that `localeCompare`
  calls equal; `sort` is stable and leaves such keys as they come (`OrderFreeIffNoTies`).
- A number too large for a double, such as 1e400, is parsed as an infinity and written as null: events
  that differ only there share a fingerprint (`TooLargeIsNull`; otherwise equal texts mean equal
  values, `SameTextIffSameMeaning`).
- Deleting a document is documented to neutralise its text (docs/adr/0009-secure-multi-provider-rag.md:32).
  It rewrites chunk rows before it touches the document row. An index job that commits in between
  leaves its chunks behind, invisible to retrieval: a first one, whose rows the delete never saw
  (`DeleteRacesFirstIndex`), and one that replaces rows at that moment, which the delete waits for and
  then skips (`DeleteRacesReindex`). The text then stays for ever (`OverlookedStays`). There is no other
  way (`DeleteNeutralisesIff`).
- A document is never committed as REJECTED: the error thrown next rolls it back
  (`RetrievalIsExact`). The failure of a job for an old version takes an indexed newer version out of
  retrieval (`LateFailureUnindexes`); `LeavesRetrievalIff` lists all steps that do so.
- An outbox row whose lease runs out is claimed again (docs/architecture/event-ingestion.md:27-28), but
  not after its tenth claim; there it stays PROCESSING for ever. A failure marked by an overtaken
  holder can also leave it PENDING with no retries left. There is no third way to get stuck
  (`StuckIff`).
- An incident cannot be resolved or closed without its analysis (docs/adr/0008-incident-lifecycle-sla-and-private-evidence.md:16-17)
  unless a client guesses a version number that nobody has seen yet and relies on stored texts;
  `SafeIffCareful` says exactly when. The table's check constraints do not catch it: they are
  unknown, not false, for a missing text.
- A response can be stamped before its deadline and marked as a breach all the same. Its time is
  sampled before the row is written and committed, and the SLA worker marks by a reading of its own,
  guarded by nothing but the mark (`InTimeResponseMarked`, `InTimeMarkedIff`).
- A payload that deserves rejection does not always bring it about. If a database call of its delivery
  fails, be it the read of the locked row or the ROLLBACK after the refusal (apps/worker/src/database.ts:31),
  that error takes the place of the rejection: the event is FAILED and no rejection is due
  (`FailedCallHidesRejection`). `ServedIffItArrives` says when payloads are served.
- That a session is revoked makes a rotation invalid only when the revocation comes between the reads of
  the token and of the session. Otherwise the token was revoked with it, which is answered as a reuse
  (`RefusedIff`).
- Revoking all sessions of a user can overwrite the time at which another request has revoked one of
  them in the meantime; nothing else moves such a time (`RevokedAtMovesIff`).
- `retry_count` of a raw event counts no retry: the increment is rolled back with every failure
  (`RawEventsLaws.EveryRun`).
- The CSV columns `attribute.constructor` and `attribute.prototype` are admitted at the ingress and
  rejected by the masker (`CsvMaskableIff`). JSON payloads have no such gap (`AdmittedIsMaskable`).
- A CSV column named `attributes` is admitted and its cells are lost; actor columns after a text in a
  column `actor` make the whole payload fail with a type error (`CellKeptIff`, `RowFailsIff`).
- `first_seen_at` of an alert is the time of the match recorded first and is never lowered; it is the
  earliest exactly when no match recorded later happened before (`FirstSeenIsEarliestIff`).
- The limiter admits up to 239 requests of a connector, and 119 of a credential, in 60 seconds, not
  twice its limits; the bound is reached (`BoundIsReached`). A credential's counter is joined from texts,
  so that an IPv6 address can make two credentials share one (`SharedCounter`, `SharedCounterIff`).
- Source event ids that differ only in lone surrogates are one id, since digests are of UTF-8
  (`DedupKeyIff`).
- The chunker covers every text of up to 199 * 541 + 1200 characters, and no more
  (`DefaultReachIsExact`).

## Model

| member | source | states |
|---|---|---|
| CanonicalJsonLaws.UnquoteEscaped | packages/domain/src/events/event-normalization-policy.ts:160-160 | Reading back a `JSON.stringify`ed string gives the string and exactly the text after it, for every sequence of code units, lone surrogates included |
| CanonicalJsonLaws.QuotePrefixFree | packages/domain/src/events/event-normalization-policy.ts:160-160 | No quoted string is a prefix of another |
| CanonicalJsonLaws.ValuePrefixFree | packages/domain/src/events/event-normalization-policy.ts:158-169 | Inside any larger text, the end of a serialised value and its sorted form can be told from the text |
| CanonicalJsonOrder.ArrangeKeepsMeaning | packages/domain/src/events/event-normalization-policy.ts:164-166 | Sorting entries at every depth loses and changes none of them |
| CanonicalJsonOrder.SortStable | packages/domain/src/events/event-normalization-policy.ts:164-166 | Of two keys that compare as equal, the earlier stays earlier |
| CanonicalJsonOrder.SameTextSameMeaning | packages/domain/src/events/event-normalization-policy.ts:158-169 | Injectivity: values with one text are equal up to key order at every depth, and up to numbers too large for a double, which are written as null |
| CanonicalJsonOrder.SameTextIffSameMeaning | apps/api/src/resources/application/resource.use-cases.ts:627-640 | Without tied keys, two values have one text exactly when they are equal up to that |
| CanonicalJsonOrder.TooLargeIsNull | packages/domain/src/events/event-normalization-policy.ts:158-169 | A number too large for a double has the text of null, alone or under any key |
| Utf16.CanonicalIsPaired | packages/domain/src/events/event-normalization-policy.ts:158-169 | The canonical text has no lone surrogate, so a digest of its UTF-8 sees all of it |
| CanonicalJsonText.EscapesSpelledOut | packages/domain/src/events/event-normalization-policy.ts:160-160 | The text of every code unit inside quotes: seven short escapes, four lower-case hexadecimal digits for other control characters and single surrogates, itself for the rest |
| CanonicalJsonText.PrintedAsItIsIff | packages/domain/src/events/event-normalization-policy.ts:160-160 | A string is printed unchanged between quotes exactly when it is well paired and has no quote, backslash or control character |
| CanonicalJsonText.ArrayText | packages/domain/src/events/event-normalization-policy.ts:161-163 | The text of an array from those of its first item and its rest |
| CanonicalJsonText.ObjectText | packages/domain/src/events/event-normalization-policy.ts:164-168 | The text of an object in key order from its first entry and its rest |
| CanonicalJsonText.ScalarText | packages/domain/src/events/event-normalization-policy.ts:158-160 | The words for null and the booleans; numbers as they are; what JSON does not know becomes null |
| CanonicalJsonOrder.OrderFreeIffNoTies | packages/domain/src/events/event-normalization-policy.ts:164-166 | A value's text is the same for every order of its keys exactly when no object in it has tied keys |
| Base32.AlphabetSpelledOut | apps/api/src/identity/infrastructure/node-identity-security.adapter.ts:37-37 | The arithmetic symbols are the alphabet constant, and `indexOf` is their inverse |
| Base32.EncodeBase32 | apps/api/src/identity/infrastructure/node-identity-security.adapter.ts:240-256 | The loop over the unmasked, wrapping 32-bit accumulator yields the encoding of RFC 4648, defined on unbounded bit strings |
| Base32.DecodeBase32 | apps/api/src/identity/infrastructure/node-identity-security.adapter.ts:258-274 | The decoding loop yields the whole bytes of the symbols' bits, or refuses exactly the texts with a foreign character; letters such as the dotless i count by their upper case |
| Base32.FilledGroupsFound | apps/api/src/identity/infrastructure/node-identity-security.adapter.ts:252-254 | The zero-filled groups are the only symbols whose bits are the given ones and fewer than five zeros |
| Base32.DecodeEncoded | apps/api/src/identity/infrastructure/node-identity-security.adapter.ts:240-275 | Every lower-cased or padded form of an encoding decodes to the bytes; an encoding of n bytes has ceil(8n/5) symbols |
| Base32.RoundTrip | apps/api/src/identity/infrastructure/node-identity-security.adapter.ts:240-275 | Decoding an encoding gives the bytes back |
| Base32.EncodeDecodedIff | apps/api/src/identity/infrastructure/node-identity-security.adapter.ts:258-274 | A text is the encoding of what it decodes to exactly when the dropped bits are fewer than five and zero |
| Base32.BitForBit | apps/api/src/identity/infrastructure/node-identity-security.adapter.ts:240-256 | Bit j of symbol k is bit 5k + j of the bytes, both counted from the highest, and zero after the last byte |
| Base32.ReadLoosely | apps/api/src/identity/infrastructure/node-identity-security.adapter.ts:258-262 | An encoding is read back in any mixture of cases and with padding anywhere |
| JsText.TrimFixedIffTrimmed | packages/contracts/src/events.ts:280-280 | `trim` leaves a text alone exactly when it has no white space at either end |
| JsText.SpacesSpelledOut | packages/contracts/src/events.ts:280-280 | The 25 white space and line end characters of ECMA-262 |
| Csv.ParseCsvRows | packages/contracts/src/events.ts:259-301 | The state machine computes the reading of the remaining text from any of its states |
| Csv.PrintThenRead | packages/contracts/src/events.ts:259-301 | Reading any quoted table, with either line end and with or without a last one, gives the table with fields trimmed and blank rows dropped |
| Csv.RoundTripIff | packages/contracts/src/events.ts:259-301 | The round trip is exact exactly for tables of trimmed fields without blank rows |
| Csv.QuotelessIsSplit | packages/contracts/src/events.ts:277-293 | Without quotes, reading is splitting at line feeds and commas |
| Csv.UnquotedIsSplit | packages/contracts/src/events.ts:277-293 | So it is whenever no field begins with a quote: a quote inside a field is a character |
| Csv.UnclosedQuoteFails | packages/contracts/src/events.ts:293-295 | After any printed rows and fields, a quote that begins a field and is not closed makes the text invalid |
| CsvEvents.BuildRecord | packages/contracts/src/events.ts:240-255 | The loop over the headers builds the record that the cells give one by one, or throws exactly when an assignment does |
| CsvEventsLaws.RowFailsIff | packages/contracts/src/events.ts:246-249 | A row throws exactly when an actor column follows a text in a column `actor` |
| CsvEventsLaws.CellKeptIff | packages/contracts/src/events.ts:240-255 | A cell can be read back from its record exactly when it is empty or its column is not displaced by another property |
| CsvEventsLaws.EventsKeepTheTable | packages/contracts/src/events.ts:218-257 | From a table through text and events back to cells: one record a row, and every cell that is not displaced |
| CsvEventsLaws.EventsIff | packages/contracts/src/events.ts:218-239 | A text gives events exactly for 2 to 501 rows of one width, at most 50 distinct headers of the pattern with the two required ones, and no clash; it is over the limits exactly for too many rows or columns, or a header that is repeated or does not fit |
| Chunking.ChunkText | packages/domain/src/knowledge/rag-policy.ts:37-60 | For all integer parameters the loop ends and makes one numbered chunk for each visible window |
| ChunkingLaws.WindowsRebuildText | packages/domain/src/knowledge/rag-policy.ts:43-58 | Windows leave no gap, and without their overlaps they rebuild the text up to the last one |
| ChunkingLaws.CharacterKept | packages/domain/src/knowledge/rag-policy.ts:43-58 | Every visible character of the covered text stands in some chunk, which is the text around it |
| ChunkingLaws.ChunksBounded | packages/domain/src/knowledge/rag-policy.ts:43-58 | Ordinals are 0..n-1, n is at most 200, each chunk has 1 to target characters and a quarter as many tokens, rounded up |
| ChunkingLaws.CutsAreWell | packages/domain/src/knowledge/rag-policy.ts:43-57 | A window ends with the text, at the last line feed within a target if that lies past six tenths of it, or at the full target; the next begins an overlap before its end, and later than it did |
| ChunkingLaws.CutsGoOn | packages/domain/src/knowledge/rag-policy.ts:42-58 | There are windows until the text ends or the 200th chunk is made |
| ChunkingLaws.ChunkHasWindow | packages/domain/src/knowledge/rag-policy.ts:48-55 | Every chunk is the trimmed text of a window |
| ChunkingLaws.FullyCovered | packages/domain/src/knowledge/rag-policy.ts:43-58 | Despite the cap, a text of at most 199 strides and a target is covered to its end |
| ChunkingLaws.DefaultReach | packages/domain/src/knowledge/rag-policy.ts:37-43 | At the defaults, that is 199 * 541 + 1200 characters |
| ChunkingLaws.DefaultReachIsExact | packages/domain/src/knowledge/rag-policy.ts:37-58 | A text one character longer is not covered |
| Masking.MaskObject | packages/domain/src/events/event-normalization-policy.ts:97-121 | Filling the record property by property computes the recursive masking, or fails exactly when it does |
| Masking.AdmittedIsMaskable | packages/contracts/src/events.ts:121-136 | No record of an admitted JSON payload, plain or GitHub, is refused by the masker |
| MaskingLaws.MaskedPath | packages/domain/src/events/event-normalization-policy.ts:97-144 | At every path a masked value has the mark (under a secret key), nothing (below one), or the same shape and keys (elsewhere), where a text becomes a pseudonym right under a user or address key, in this order, and is rewritten everywhere else |
| MaskingLimits.MaskableIff | packages/domain/src/events/event-normalization-policy.ts:97-144 | A value is refused exactly when a path outside secret keys leads to a key of the prototype, an array or object more than six levels down, an array of more than 500 items, or nothing |
| MaskingLimits.AdmittedIff | packages/contracts/src/events.ts:121-216 | A payload is admitted exactly when it is an object or 1 to 500 of them, has at most 1,000 properties, and no path is longer than six steps or leads to a text over 10,000 characters, an array over 500 items or a key that does not fit |
| MaskingLaws.SecretsRedacted | packages/domain/src/events/event-normalization-policy.ts:107-110 | A secret key at any depth holds `[REDACTED]` |
| MaskingLaws.FlatMaskableIff | packages/domain/src/events/event-normalization-policy.ts:104-106 | Flat string attributes are refused exactly for a forbidden key |
| CsvMasking.CsvMaskableIff | packages/contracts/src/events.ts:224-255 | The records of an admitted CSV text are maskable exactly when no column is named `attribute.constructor` or `attribute.prototype` |
| CsvMasking.RefusedTextIsAdmitted | packages/contracts/src/events.ts:224-231 | There are admitted texts with such a column |
| RefreshTokens.SessionRepository.CreateSession | apps/api/src/identity/infrastructure/prisma/prisma-identity.repository.ts:472-518 | A session starts with one root token; the whole new state |
| RefreshTokens.SessionRepository.FindSession | apps/api/src/identity/infrastructure/prisma/prisma-identity.repository.ts:563-566 | The read of the session is a step after that of the token |
| RefreshTokens.SessionRepository.FinishRotation | apps/api/src/identity/infrastructure/prisma/prisma-identity.repository.ts:570-616 | From a possibly outdated read: the answer and the whole new state of every branch, conditional consumption included; `RotatedIff`, `RefusedIff` and `RotationLeaves` say what they are |
| RefreshTokens.SessionRepository.RevokeSessionGraph | apps/api/src/identity/infrastructure/prisma/prisma-identity.repository.ts:1161-1175 | Marks the session and all its tokens, keeping earlier marks, and nothing else |
| RefreshTokens.SessionRepository.ListLiveSessions | apps/api/src/identity/infrastructure/prisma/prisma-identity.repository.ts:703-707 | The read before that: the live sessions of the user |
| RefreshTokens.SessionRepository.RevokeAllSessions | apps/api/src/identity/infrastructure/prisma/prisma-identity.repository.ts:708-728 | Marks the sessions it read as live, by their ids alone, and their unmarked tokens, whatever happened to them since; nothing else |
| RefreshTokensLaws.OneChainOneLiveToken | apps/api/src/identity/infrastructure/prisma/prisma-identity.repository.ts:563-616 | In every reachable state the tokens of a session are one parent chain, only its last can be live, no token has two children, and a revoked session has only revoked tokens |
| RefreshTokensLaws.RotatedOnce | apps/api/src/identity/infrastructure/prisma/prisma-identity.repository.ts:598-606 | A token is rotated at most once, whatever other requests have read |
| RefreshTokensLaws.MisuseKillsSession | apps/api/src/identity/infrastructure/prisma/prisma-identity.repository.ts:570-606 | A used or revoked token, another device, or a lost race revokes the session and all its tokens |
| RefreshTokensLaws.MisuseIsFinal | apps/api/src/identity/infrastructure/prisma/prisma-identity.repository.ts:570-606 | After that no continuation rotates a token of the session, not even for requests that read earlier |
| RefreshTokensLaws.RotatedIff | apps/api/src/identity/infrastructure/prisma/prisma-identity.repository.ts:570-606 | In every run a rotation succeeds exactly when, as it writes, the token is unused and unrevoked, the device is its session's, and both are before their ends; what it read, and when, makes no difference |
| RefreshTokensLaws.RefusedIff | apps/api/src/identity/infrastructure/prisma/prisma-identity.repository.ts:570-606 | Which of the other answers a request gets, and that an invalid one changes nothing |
| RefreshTokensLaws.RotationLeaves | apps/api/src/identity/infrastructure/prisma/prisma-identity.repository.ts:598-616 | A rotation uses the token up and adds one live child with the new hash and end, and changes nothing else |
| RefreshTokensHistory.TokenHasOrigin | apps/api/src/identity/infrastructure/prisma/prisma-identity.repository.ts:472-518 | Every token was issued by one step of the run, which gave it its session, parent, hash and end, and its session its user, device and end |
| RefreshTokensHistory.RotatedInTime | apps/api/src/identity/infrastructure/prisma/prisma-identity.repository.ts:592-598 | No step rotates a token at or after the end that the step which issued it gave to it |
| RefreshTokensHistory.UsedIff | apps/api/src/identity/infrastructure/prisma/prisma-identity.repository.ts:599-602 | A token is used at a time exactly when a step of the run rotated it then |
| RefreshTokensHistory.RevokedIff | apps/api/src/identity/infrastructure/prisma/prisma-identity.repository.ts:570-606 | A session is revoked exactly when some step presented one of its tokens from another device or after its use or revocation, or its user revoked it, alone or with all; and its tokens exactly when it is |
| RefreshTokensLaws.RotationSucceeds | apps/api/src/identity/infrastructure/prisma/prisma-identity.repository.ts:598-616 | A live token of a live session, presented in time by its device, is used up and leaves a live child |
| RefreshTokens.ReadEnablesFinish | apps/api/src/identity/infrastructure/prisma/prisma-identity.repository.ts:563-616 | A rotation can finish on whatever it has read, however long ago: the token is still there, in its session |
| RefreshTokensLaws.RevokedAtMovesIff | apps/api/src/identity/infrastructure/prisma/prisma-identity.repository.ts:703-711 | The time of a revocation is moved exactly by a revoke-all that had read the session as live before and writes another time |
| Incidents.IncidentRepository.CheckTransition | apps/api/src/incidents/application/incident.use-cases.ts:147-159 | The use case's own read and check: its verdict, and what it knows from then on |
| Incidents.IncidentRepository.Transition | apps/api/src/incidents/infrastructure/prisma-incident.repository.ts:479-510 | The guarded write, with a time sampled after the read: it succeeds exactly when both rows have the version and status named, and is one step of the laws |
| Incidents.IncidentRepository.UpdateAnalysis | apps/api/src/incidents/infrastructure/prisma-incident.repository.ts:550-576 | The guarded write of root cause and lessons: refused exactly for a stale version or a clearing the status forbids; on success each text is the one that was set, none, or the old one; one step of the laws |
| Incidents.IncidentRepository.Assign | apps/api/src/incidents/infrastructure/prisma-incident.repository.ts:411-428 | The guarded write: on success the assignee is the one that was named; one step of the laws |
| Incidents.IncidentRepository.EvaluateSla | apps/worker/src/incident.processor.ts:193-212 | From the row it read and the time it judges at: marks exactly a missed target that is not marked meanwhile, with the start of its transaction; one step of the laws |
| IncidentsLaws.WritersBump | apps/worker/src/incident.processor.ts:207-212 | No writer changes an incident without raising its version by one |
| IncidentsLaws.TimesMatchStatus | apps/api/src/incidents/infrastructure/prisma-incident.repository.ts:484-509 | In every reachable state resolvedAt, closedAt and firstRespondedAt are set exactly for their statuses, and no breach is marked before its deadline |
| IncidentsHistory.VerdictIff | packages/domain/src/incidents/incident-policy.ts:16-70 | A transition is refused exactly when its move is not one of eleven, and for want of analysis exactly when neither request nor row has the texts, of ten characters or more, that the target asks for |
| IncidentsHistory.MovesOnly | apps/api/src/incidents/infrastructure/prisma-incident.repository.ts:484-509 | In every run the status changes only by transitions, along eleven moves |
| IncidentsHistory.MovePossible | apps/api/src/incidents/application/incident.use-cases.ts:147-175 | Each of them can be made from every state |
| IncidentsHistory.TransitionWrites | apps/api/src/incidents/infrastructure/prisma-incident.repository.ts:483-509 | Every field after a transition, from the row it writes over, which is the row its transaction read |
| IncidentsHistory.TextIsTheLastSaid | apps/api/src/incidents/infrastructure/prisma-incident.repository.ts:564-569 | In every run root cause and lessons are what the last successful request that mentioned them said |
| IncidentsHistory.AssigneeIsTheLastNamed | apps/api/src/incidents/infrastructure/prisma-incident.repository.ts:417-427 | The assignee is the one named last |
| IncidentsLaws.MarksAreFinal | apps/worker/src/incident.processor.ts:207-212 | First response and breach marks are written at most once and never cleared |
| IncidentsLaws.MarkedIff | apps/worker/src/incident.processor.ts:187-210 | In every run a breach is marked exactly when some worker that read the row unmet and unmarked judged it at or after the deadline |
| IncidentsLaws.ScheduledMarks | apps/worker/src/incident.processor.ts:207-210 | Workers that start at or after the deadline leave marks at or after it |
| IncidentsLaws.InTimeMarkedIff | apps/worker/src/incident.processor.ts:187-210 | A response stamped in time is marked exactly when a worker read the row before the response was committed and judged it at or after the deadline |
| IncidentsLaws.InTimeResponseMarked | apps/api/src/incidents/infrastructure/prisma-incident.repository.ts:483-493 | A run in which that happens, with the worker started on schedule |
| IncidentsLaws.MayStillBeMarkedIff | apps/worker/src/incident.processor.ts:187-210 | Once a response is written, a mark can still come exactly when a worker holds a reading without it |
| IncidentsLaws.AnalysisBeforeResolution | apps/api/src/incidents/application/incident.use-cases.ts:147-175 | If clients submit observed versions, no reachable incident is resolved without a root cause or closed without lessons, although each check reads an earlier snapshot |
| IncidentsLaws.GuessedVersionBreaks | apps/api/src/incidents/application/incident.use-cases.ts:147-175 | A guessed version that relies on stored analysis has a continuation that resolves or closes without it |
| IncidentsLaws.SafeIffCareful | apps/api/src/incidents/application/incident.use-cases.ts:147-175 | Exactly the requests that name an observed version, or bring their own texts, are safe in every continuation |
| IncidentsLaws.MeaningfulPassesChecks | prisma/migrations/20260801180000_phase_5_incident_management/migration.sql:66-71 | The check constraints refuse no meaningful text and no missing one |
| KnowledgeIndex.Store.AddVersion | apps/api/src/knowledge/infrastructure/prisma-knowledge.repository.ts:92-116 | A new version becomes current and PENDING; refused exactly when the document is deleted or has the content already |
| KnowledgeIndex.Store.StartIndexing | apps/worker/src/knowledge-index.processor.ts:36-74 | The first transaction: claimed exactly for the current version of a live document with the right provider; otherwise nothing changes |
| KnowledgeIndex.Store.LockDocument | apps/worker/src/knowledge-index.processor.ts:87-101 | The second transaction takes the document row, unless the version was overtaken or deleted |
| KnowledgeIndex.Store.FinishIndexing | apps/worker/src/knowledge-index.processor.ts:102-140 | It replaces the chunk rows one by one and commits, with or without the worker learning of it |
| KnowledgeIndex.Store.BeginDeletion | apps/api/src/knowledge/infrastructure/prisma-knowledge.repository.ts:140-149 | Rewrites the rows it sees; it waits for rows that are being replaced |
| KnowledgeIndex.Store.CommitDeletion | apps/api/src/knowledge/infrastructure/prisma-knowledge.repository.ts:150-153 | Takes the document row and sets DELETED; exactly the rows it rewrote are neutral |
| KnowledgeIndexLaws.RetrievalIsExact | apps/api/src/knowledge/infrastructure/prisma-knowledge.repository.ts:215-230 | Under every interleaving an INDEXED document's current version has exactly its content's chunks, retrieval sees those or nothing, REJECTED is never committed, DELETED is final |
| KnowledgeIndexLaws.IndexingIsUnderWay | apps/worker/src/knowledge-index.processor.ts:67-72 | In every run a document that is INDEXING has an attempt at its current version under way |
| KnowledgeIndexLaws.IndexingCanEnd | apps/worker/src/knowledge-index.processor.ts:166-179 | Whatever becomes of it, the error path of that attempt makes the document PENDING |
| KnowledgeIndexLaws.IndexingSucceeds | apps/worker/src/knowledge-index.processor.ts:87-135 | From every state of a live document the job of its current version, left alone, makes exactly its chunks retrievable |
| KnowledgeIndexLaws.DeleteNeutralisesIff | apps/api/src/knowledge/infrastructure/prisma-knowledge.repository.ts:145-153 | The delete that ends a document neutralises all its rows exactly when no replacement of rows was committed while it ran |
| KnowledgeIndexLaws.UndisturbedDelete | apps/api/src/knowledge/infrastructure/prisma-knowledge.repository.ts:145-153 | After an undisturbed delete every row is and stays neutral |
| KnowledgeIndexLaws.DeleteRacesFirstIndex | apps/api/src/knowledge/infrastructure/prisma-knowledge.repository.ts:145-153 | A reachable state from which a delete and a first index job run to a delete that overlooks the rows of that job |
| KnowledgeIndexLaws.DeleteRacesReindex | apps/api/src/knowledge/infrastructure/prisma-knowledge.repository.ts:145-153 | The same for the redelivered job of a version that was indexed when the delete began |
| KnowledgeIndexLaws.OverlookedStays | apps/api/src/knowledge/infrastructure/prisma-knowledge.repository.ts:145-153 | After such a delete the document is DELETED and keeps all its text in every continuation |
| KnowledgeIndexLaws.LeavesRetrievalIff | apps/api/src/knowledge/infrastructure/prisma-knowledge.repository.ts:215-230 | Exactly these steps take an indexed document out of retrieval: a new version, the current version's job started again, any recorded failure, a committed delete |
| KnowledgeIndexLaws.LateFailureUnindexes | apps/worker/src/knowledge-index.processor.ts:166-176 | A run in which the failure of an old version's job takes a newer, indexed one out of retrieval |
| Outbox.ChosenRows | apps/worker/src/outbox-dispatcher.ts:105-117 | Only claimable, unlocked rows are chosen, and all of them unless 200 are |
| OutboxLaws.ChosenIff | apps/worker/src/outbox-dispatcher.ts:103-116 | A row is taken exactly when it is open, its time has come, it has fewer than ten retries, nobody has locked it, and fewer than 200 such rows come before it |
| Outbox.Dispatcher.SelectCandidates | apps/worker/src/outbox-dispatcher.ts:105-117 | Row by row in query order, the selection is those rows |
| Outbox.Dispatcher.ClaimBatch | apps/worker/src/outbox-dispatcher.ts:97-134 | Exactly rows that are PENDING or PROCESSING, due, unlocked and below ten retries become PROCESSING with one more retry and a lease of a minute, at most 200, and all of them if there are fewer |
| Outbox.ClaimBatchIsSteps | apps/worker/src/outbox-dispatcher.ts:97-134 | The claiming statement refines the steps of the laws: a claim for each chosen row, none for the others |
| Outbox.Dispatcher.Publish | apps/worker/src/outbox-dispatcher.ts:136-155 | Enqueues and marks, or marks the failure, for every outcome of the two calls |
| Outbox.PublishIsRun | apps/worker/src/outbox-dispatcher.ts:136-155 | Publishing refines the interleaved steps of the laws |
| OutboxLaws.EveryRun | apps/worker/src/outbox-dispatcher.ts:97-155 | With any number of dispatchers, crashes and expired leases: at most ten claims, PUBLISHED only after enqueueing, FAILED only after the tenth claim, both final |
| OutboxLaws.RetryCountCountsClaims | apps/worker/src/outbox-dispatcher.ts:118-124 | The retry count is the number of successful claims |
| OutboxLaws.ClaimIff | apps/worker/src/outbox-dispatcher.ts:105-124 | A claim takes a row exactly when it is due, for a minute |
| OutboxLaws.RetriesInOrder | apps/worker/src/outbox-dispatcher.ts:105-155 | From a new row: after n failures it waits 2, 4, 8, ... and at last 300 seconds, a due cycle that succeeds publishes it, one that comes too early does nothing, and the tenth failure makes it FAILED |
| OutboxLaws.LeaseHolds | apps/worker/src/outbox-dispatcher.ts:109-122 | Until the lease of a claim ends, whatever others do other than mark leaves the row as that claim made it: no claim succeeds |
| OutboxLaws.FirstMarkDecides | apps/worker/src/outbox-dispatcher.ts:210-229 | From the tenth claim on, the first mark decides: PUBLISHED, FAILED when the tenth holder failed, PENDING when an earlier one did, PROCESSING while there is none |
| OutboxLaws.StuckIff | apps/worker/src/outbox-dispatcher.ts:105-113 | A row is stuck exactly when its tenth claim is made, all holders are gone, and the first mark after that claim, if any, was the failure of an earlier holder; it is PROCESSING if there was none, and PENDING otherwise |
| OutboxLaws.SoleDispatcherNeverSticks | apps/worker/src/outbox-dispatcher.ts:97-155 | One dispatcher that never stops halfway leaves no row without retries PENDING or PROCESSING |
| OutboxLaws.CrashOnTenthClaimSticks | apps/worker/src/outbox-dispatcher.ts:109-113 | A row whose tenth holder stops is stuck |
| OutboxLaws.LateFailureSticks | apps/worker/src/outbox-dispatcher.ts:219-229 | A ninth holder's late failure sticks a row that the tenth has enqueued |
| Ingress.ResourceRepository.Ingest | apps/api/src/resources/infrastructure/prisma-resource.repository.ts:588-694 | An active connector gets the existing raw event, or a new one with its message; an inactive one gets nothing |
| Ingress.ResourceRepository.RecordIngress | apps/api/src/resources/infrastructure/prisma-resource.repository.ts:698-757 | Look-up, expiry, conflict, replay, recording and rollback together give the answer and new state of one reception |
| Ingress.ResourceRepository.ReceiveIngress | apps/api/src/resources/application/resource.use-cases.ts:452-535 | The refusals before the tables, then the reception |
| IngressLaws.RequestHashIff | apps/api/src/resources/application/resource.use-cases.ts:515-574 | Two requests share a request hash exactly when bodies and content types agree |
| IngressLaws.DedupKeyIff | apps/api/src/resources/application/resource.use-cases.ts:498-503 | Two submissions share a deduplication key exactly for source event ids that UTF-8 does not tell apart or, without one, the same body |
| IngressLaws.SameProperSource | apps/api/src/resources/application/resource.use-cases.ts:498-503 | For source event ids without lone surrogates, that means that the ids are equal |
| IngressLaws.ReceiptNamesItsEvent | apps/api/src/resources/infrastructure/prisma-resource.repository.ts:609-693 | Every receipt names for ever the raw event with its request's deduplication key, which has exactly one message |
| IngressLaws.SameEventIffSameSubmission | apps/api/src/resources/infrastructure/prisma-resource.repository.ts:609-693 | Two receipts of a run name one raw event exactly for one submission through one connector |
| IngressLaws.NothingGainedOrLost | apps/api/src/resources/infrastructure/prisma-resource.repository.ts:635-686 | As many raw events, and messages, as receptions answered as new |
| IngressLaws.KeyReplaysFirstAnswer | apps/api/src/resources/infrastructure/prisma-resource.repository.ts:704-734 | Within a day an idempotency key gives its first answer again for the same request and a conflict for every other |
| IngressLaws.KeyRunsOut | apps/api/src/resources/infrastructure/prisma-resource.repository.ts:718-745 | From then on the key is free: the next request with it is received as if it had never been used |
| IngressLaws.AnsweredIff | apps/api/src/resources/application/resource.use-cases.ts:452-535 | Which answer a request gets, for every state |
| IngressLaws.RawEventHasOrigin | apps/api/src/resources/infrastructure/prisma-resource.repository.ts:635-653 | Every raw event was made by one reception of the run, from its connector, key, payload and time, and is RECEIVED until it is moved on |
| IngressLaws.StatusIsLastMove | apps/api/src/resources/infrastructure/prisma-resource.repository.ts:625-632 | The status of a raw event, which a later receipt shows, is the one it was moved to last |
| IngressLaws.ConflictHasCause | apps/api/src/resources/infrastructure/prisma-resource.repository.ts:722-733 | A conflict means an earlier, different request with the key; "still processing" is never answered, since no incomplete record is committed |
| RawEvents.EventIngestionProcessor.Normalize | apps/worker/src/event-ingestion.processor.ts:75-82 | All candidates' values in order, or the first refusal |
| RawEvents.EventIngestionProcessor.InsertNormalizedEvents | apps/worker/src/event-ingestion.processor.ts:143-185 | One row for each index that had none |
| RawEvents.EventIngestionProcessor.Process | apps/worker/src/event-ingestion.processor.ts:49-105 | One delivery with its rollback: the verdict, a failure wherever a database call fails, the new state and the mark that is due |
| RawEventsLaws.EveryRun | apps/worker/src/event-ingestion.processor.ts:49-105 | NORMALIZED exactly with rows 0..record_count-1 and one batch message, else neither; PROCESSING is never committed; the retry count is 1 for NORMALIZED and 0 otherwise; NORMALIZED and REJECTED are final |
| RawEventsLaws.OutcomeIsThePayloads | apps/worker/src/event-ingestion.processor.ts:66-91 | However it is delivered, a payload ends NORMALIZED only if it has as many candidates as were counted and all are acceptable, with their values; REJECTED only as malformed, for their number, or for the first that is refused, with that code |
| RawEventsLaws.DeservesIff | apps/worker/src/event-ingestion.processor.ts:66-82 | A payload is rejected with a code, normalised with values, or fails, exactly for these reasons |
| RawEventsLaws.GoodDeliverySettles | apps/worker/src/event-ingestion.processor.ts:49-105 | A delivery without a failure settles the event, after any history |
| RawEventsLaws.ServedIffItArrives | apps/worker/src/event-ingestion.processor.ts:49-105 | A readable payload is served (its rows stored, or the event REJECTED with its code, or the mark for that due) exactly when one delivery of its own job meets no failing database call, whatever else is delivered, fails or is marked |
| RawEventsLaws.FailedCallHidesRejection | apps/worker/src/event-ingestion.processor.ts:94-105 | A run in which a failing call leaves a payload that deserves rejection FAILED, with no rejection due |
| Detection.RiskScore | packages/domain/src/detection/detection-policy.ts:130-142 | A score lies in the band of its severity, at most 25 wide and cut off at 100 |
| Detection.DetectionProcessor.UpsertAlert | apps/worker/src/detection.processor.ts:248-302 | One more occurrence and raised maxima, or a new alert with its message; and the link |
| Detection.DetectionProcessor.Process | apps/worker/src/detection.processor.ts:54-140 | The nested loops apply every rule to every event, or, when a rule cannot be used, leave everything as it was; the counts are the new rows |
| DetectionLaws.CorrelateIff | packages/domain/src/detection/detection-policy.ts:87-92 | Correlation texts are equal exactly when the events agree in every dimension: user, address and asset, where none and "unknown" are one, event type and fingerprint |
| DetectionLaws.SameAlertIff | packages/domain/src/detection/detection-policy.ts:94-102 | Matches share an alert exactly for one rule version, equal correlation texts, and windows of one number, each as long as its rule says |
| DetectionLaws.OneAlertIff | packages/domain/src/detection/detection-policy.ts:87-102 | One rule version puts two events under one alert exactly when they agree in its dimensions and one multiple of its window has both |
| DetectionLaws.UsableIff | apps/worker/src/detection.processor.ts:68-80 | A batch can be processed exactly when every rule is readable and has a threshold of at least 1 and a window of at least 60 seconds |
| DetectionLaws.BatchAt | apps/worker/src/detection.processor.ts:63-91 | The order of a batch: every rule for every event, with the count and anomaly of its own history |
| DetectionLaws.ExecutionSays | apps/worker/src/detection.processor.ts:84-90 | An execution matches exactly when the count reaches the threshold, and has the score to the nearest thousandth |
| DetectionLaws.RiskScoreIs | packages/domain/src/detection/detection-policy.ts:130-142 | 10, 25, 50, 75 or 95 for the severity, 3 for each of up to five matches over the threshold, 2 for each of up to five units of anomaly, at most 100 |
| DetectionLaws.AlertsAccountForMatches | apps/worker/src/detection.processor.ts:258-300 | After any batches: occurrences = matched executions with the key = linked events, risk and last-seen are their maxima, one created message |
| DetectionLaws.RedeliveryChangesNothing | apps/worker/src/detection.processor.ts:91-110 | Processing a batch again under the same rule versions changes nothing, whatever came in between |
| DetectionLaws.ExecutionsDetermineAlerts | apps/worker/src/detection.processor.ts:258-300 | Order and batching do not matter: the executions determine the alerts, but for first-seen |
| DetectionLaws.AlertIffRecorded | apps/worker/src/detection.processor.ts:112-124 | In every run an alert is there exactly when a match with its key was recorded |
| DetectionLaws.FirstSeenIsTheFirstRecorded | apps/worker/src/detection.processor.ts:258-266 | First-seen is when the match that was recorded first happened |
| DetectionLaws.FirstSeenIsEarliestIff | apps/worker/src/detection.processor.ts:258-266 | It is the earliest time of the alert's matches exactly when no match recorded later happened before |
| DetectionLaws.FirstSeenIsNotTheEarliest | apps/worker/src/detection.processor.ts:258-266 | A run of two matches in which it is not |
| DetectionLaws.RiskMonotone | packages/domain/src/detection/detection-policy.ts:130-142 | More matches, a higher anomaly or a lower threshold never lower the stored score |
| EventPagesLaws.PageFacts | apps/api/src/events/infrastructure/prisma-event.repository.ts:48-84 | A page is newest first, at most the limit, and leaves out only events past its own cursor |
| EventPagesLaws.WalkIsSound | apps/api/src/events/application/event.use-cases.ts:42-60 | Even while events come and go, following cursors returns no event twice, newest first, only matching ones |
| EventPagesLaws.WalkMissesNothing | apps/api/src/events/application/event.use-cases.ts:42-60 | If such a walk ends, it has every matching event that was there throughout |
| EventPagesLaws.WalkIsComplete | apps/api/src/events/application/event.use-cases.ts:53-59 | Over one table, for every limit of at least 1 and any ties, the walk returns exactly the sorted matching events and stops after the last full page |
| EventPagesLaws.ListingFromTheTop | apps/api/src/events/application/event.use-cases.ts:27-60 | Fifty events a page unless asked otherwise: the walk returns exactly the events that every given filter asks for, newest first, and its first page is the use case's |
| EventPagesLaws.ListingIs | apps/api/src/events/application/event.use-cases.ts:27-60 | Only a reversed range or one over 31 days is refused; every other page is the walk's |
| IngressProtection.Protection.AssertAllowed | apps/api/src/resources/infrastructure/redis-ingress-protection.adapter.ts:10-58 | Both counters go up, opening windows where they had expired; allowed exactly within both limits |
| IngressProtectionLaws.FewerThanTwiceTheLimit | apps/api/src/resources/infrastructure/redis-ingress-protection.adapter.ts:10-19 | Any 60 seconds of any trace see at most 239 requests of a connector, 119 of a credential, allowed |
| IngressProtectionLaws.BoundIsReached | apps/api/src/resources/infrastructure/redis-ingress-protection.adapter.ts:13-19 | A trace with 239 of them within two milliseconds |
| IngressProtectionLaws.RefusedOnlyWhenBusy | apps/api/src/resources/infrastructure/redis-ingress-protection.adapter.ts:47-58 | A refusal means that the last 60 seconds hit the connector's or the credential's counter more often than its limit |
| IngressProtectionLaws.RefusedIff | apps/api/src/resources/infrastructure/redis-ingress-protection.adapter.ts:13-19 | A request is refused exactly when more than 120 have hit its connector, or more than 60 its credential and address, since the one that opened the window, refused ones included |
| IngressProtectionLaws.OwnCounterIff | apps/api/src/resources/infrastructure/redis-ingress-protection.adapter.ts:43-46 | Over addresses without colons a credential's counter is its own at that address |
| IngressProtectionLaws.SharedCounterIff | apps/api/src/resources/infrastructure/redis-ingress-protection.adapter.ts:43-46 | Two pairs of credential and address share a counter exactly when they are equal, or one credential is the other with a colon and some text behind it, and the other's address is the one's with that text and a colon in front |
| IngressProtectionLaws.SharedCounter | apps/api/src/resources/infrastructure/redis-ingress-protection.adapter.ts:43-46 | Two credentials that share a counter through an IPv6 address |

## Left out

- Row-level security, organisations, memberships, permissions and MFA: one tenant is modelled, and the checks around each operation are not; `rotateRefreshToken` answers "invalid" after a rotation when the membership is gone, which changes no token.
- Timeline entries, audit records, notifications, metrics and logs that accompany the writes.
- Cryptography, MinIO, embedding providers, BullMQ and Redis beyond the commands of the limiter's script.
- Regular expressions that classify keys or rewrite text, Unicode normalisation, Zod schemas beyond the bounds used here, and the assembly of a normalised event around the masker: parameters or inputs.
- Embedding vectors, ranking, `confidence` and `shouldAbstain`: floating point is the point there. Retrieval is modelled as the set of rows it may rank.
- `listIncidents` paging, whose filters overwrite the cursor's condition.
- Rule conditions, counting over history, anomaly scores, correlation edges and alert suppression: detection takes counts and scores as parameters.
- The polling timer of the dispatcher and the routing of events to queues; the queue is a set of events.
- Detection.DetectionProcessor.Process: requires a positive deduplication window, as a check constraint of the rules guarantees.
- DetectionLaws.CorrelateIff: requires that no correlation value contains the separator, as holds of hexadecimal digests, UUIDs and the pattern of event types.
- Detection.RiskScore: scores are exact reals here and doubles in the source; rounding to thousandths is half up.
- CanonicalJson.StableStringify: a number is the text that JavaScript prints for it, so 0 and -0 are one number; a nesting deeper than the call stack is not modelled.
- Chunking.ChunkText: the text is already sanitised and trimmed; `target * 0.6` is exact.
- KnowledgeIndex.Store.StartIndexing: provider and model of an embedding are one value. The chunks of a content are those of any chunker; the worker's is `DefaultChunker`.
- Incidents.IncidentRepository.Assign: whether the assignee is an active member is not checked.
- Ingress.ResourceRepository.ReceiveIngress: signature, API key and rate-limit checks are one flag of the request; a generated id is taken to be new.
- Masking.MaskObject: an object's own entries come in insertion order; keys that look like array indexes, which JavaScript moves to the front, are not treated apart.
- EventPagesLaws.WalkIsComplete: cursors are passed as values; their base64url text is not modelled.
