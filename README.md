# orkivar, modelled in Dafny

orkivar is the service that archives a person's activity plan and dialogue history. A case
worker's client posts the plan to `/arkiver`. The service has the plan rendered to PDF and
files the PDF as a journal record in the national archive. It then logs the filing in its own
journal table. `/forhaandsvisning` renders the same document for preview only, together with
the time the plan was last archived for that follow-up period.

This project models the rules of that flow and the state beside it:

- the two route handlers, `arkivering_route.dfy`;
- the journal log, `journal_repository.dfy`;
- the PDF preview cache and its facade, `pdf_cache_repository.dfy` and `pdf_cache.dfy`;
- the scope-keyed access-token cache, `azure_client.dfy`;
- the exception-to-response mapping, `error_handling.dfy`;
- the call-logging path filter, `monitoring.dfy`.

`wrappers.dfy` holds `Option` and `Result`. `primitives.dfy` holds the time and UUID types:
a timestamp is an integer count of nanoseconds, a UUID a natural number.

How the state is modelled:

- Where the Kotlin code updates state, the model is a class whose fields the methods reassign.
  - `Journal.Repository` holds the journal rows as a sequence.
  - `PdfCacheStore.PdfCacheRepository` holds the cache table as a map from
    (case worker, national id) to (bytes, updatedAt, uuid).
  - `AzureAuth.AzureClient` holds the token map.
- Each method is proved against pure functions of the old state: `Select`, `Upsert`, `Find`,
  `DeleteUuid`, `Sweep`, `Reusable`, `Fetched`. The properties the code promises are lemmas
  about those functions.

How the handlers are modelled:

- Each handler is a step function from the request and its collaborators' answers to the HTTP
  answer. The collaborators are the PDF renderer, the archive client, `UUID.fromString` and the
  date formatter.
- The step function also returns the trace of effects: rendered, archived, stored, looked up.
- `Arkivering.PostArkiver` and `Arkivering.PostForhaandsvisning` run the same steps against a
  `Journal.Repository` object. `PostArkiver` is proved equal to `Arkiver`, the handler as written.
  `PostForhaandsvisning` is proved equal to the corrected `Forhaandsvisning`, not to the preview
  as written: the two differ when the renderer fails (see "## Findings").
- The clock reading (`LocalDateTime.now()`) and `UUID.randomUUID()` are parameters. A UUID the
  cache writes must not already be in use.

Where the source files disagree with one another, the model fixes one shape:

- The route builds `NyJournalføring` without its `type` field
  (`src/main/kotlin/dab/poao/nav/no/arkivering/ArkiveringRoute.kt:71-78` against `src/main/kotlin/dab/poao/nav/no/database/Repository.kt:80`). The
  route's journal look-up callback takes no type either. The type is therefore a parameter of
  both handlers, and the look-up filters by it, as `Repository.hentJournalposter` does.
- The route builds an eight-field renderer payload; the model follows the route.
- The route treats the rendered PDF as the renderer's string; the model follows the route.
- `ForhaandsvisningOutbound` has a `uuidCachetPdf` field that the route never fills, so the
  model always answers it as none.

Column widths (`varchar` 7 and 11) are not checked by the code itself: the database refuses
the insert and the transaction throws. The model
follows the code, so a too-long value is an error result of `LagreJournalfoering` and `Lagre`.
In `/arkiver` that error becomes a 500 answer through the generic exception handler.

`hentUtBearerToken` returns the last space-separated piece of the `Authorization` header. It
does not check that the scheme word is `Bearer` (RFC 6750, section 2.1), so `Basic abc` yields
`abc`. The model keeps that behaviour.

## Model

| member | source | states |
|---|---|---|
| `ErrorHandling.Respond` | src/main/kotlin/dab/poao/nav/no/plugins/ErrorHandling.kt:10-20 | `IllegalAccessException` gives 400 with "401: "; `BadRequestException` gives 400 with "400: "; every other exception gives 500 with "500: ". The status is 400 exactly for the first two kinds. |
| `ErrorHandling.RespondKeepsMessage` | src/main/kotlin/dab/poao/nav/no/plugins/ErrorHandling.kt:11-19 | The exception's message follows the five-character prefix unchanged. |
| `ErrorHandling.IllegalAccessStatusDiffersFromText` | src/main/kotlin/dab/poao/nav/no/plugins/ErrorHandling.kt:11-13 | For `IllegalAccessException` the status is 400 while the text says 401. |
| `Monitoring.Contains` | src/main/kotlin/dab/poao/nav/no/plugins/Monitoring.kt:24 | `List.contains` holds exactly when the path is a member of the list. |
| `Monitoring.ShouldLog` | src/main/kotlin/dab/poao/nav/no/plugins/Monitoring.kt:22-25 | The `CallLogging` filter: `startsWith("/")` and not in the excluded list. Its promise is stated by `LoggedIffAbsoluteAndNotExcluded`. |
| `Monitoring.LoggedIffAbsoluteAndNotExcluded` | src/main/kotlin/dab/poao/nav/no/plugins/Monitoring.kt:13-25 | A call is logged iff its path starts with `/` and is none of `/isAlive`, `/isReady`, `/metrics`. |
| `Monitoring.RelativePathNotLogged` | src/main/kotlin/dab/poao/nav/no/plugins/Monitoring.kt:24 | A path not starting with `/` is never logged; this includes the empty path. |
| `Monitoring.ExtendedExcludedPathLogged` | src/main/kotlin/dab/poao/nav/no/plugins/Monitoring.kt:13-24 | Exclusion is by exact match: an excluded path extended by any suffix is logged. |
| `Monitoring.MetricsRouteLogged` | src/main/kotlin/dab/poao/nav/no/plugins/Monitoring.kt:24-29 | The plugin's own `/metrics-micrometer` route is logged, while `/metrics` is not. |
| `Journal.Select` | src/main/kotlin/dab/poao/nav/no/database/Repository.kt:57-71 | A `find` returns exactly the stored rows matching the condition and the type, and no more rows than are stored. |
| `Journal.SelectAppend` | src/main/kotlin/dab/poao/nav/no/database/Repository.kt:43-71 | Appending a row leaves each query's earlier result in place. It adds the row at the end of exactly the queries it matches. |
| `Journal.InsertInvisibleElsewhere` | src/main/kotlin/dab/poao/nav/no/database/Repository.kt:43-71 | Storing an entry leaves every query for another national id, period or type unchanged. |
| `Journal.InsertVisibleToBothQueries` | src/main/kotlin/dab/poao/nav/no/database/Repository.kt:43-71 | After storing an entry, the query by its national id and the query by its period each return the old result plus the entry. |
| `Journal.Repository.constructor` | src/main/kotlin/dab/poao/nav/no/database/Repository.kt:22-30 | A new table is empty. |
| `Journal.Repository.LagreJournalfoering` | src/main/kotlin/dab/poao/nav/no/database/Repository.kt:43-55 | An entry whose values fit the `varchar(7)` and `varchar(11)` columns declared at lines 23-24 is appended as one row with exactly its fields, and the call succeeds. Otherwise the call fails and the table is unchanged. No operation updates or deletes a row. |
| `Journal.Repository.HentJournalposterForFnr` | src/main/kotlin/dab/poao/nav/no/database/Repository.kt:57-63 | Returns exactly the stored rows with that national id and that type. |
| `Journal.Repository.HentJournalposterForPeriode` | src/main/kotlin/dab/poao/nav/no/database/Repository.kt:65-71 | Returns exactly the stored rows with that follow-up period and that type. |
| `Journal.StoreTwoEntries` | src/main/kotlin/dab/poao/nav/no/database/Repository.kt:43-63 | A client: two people's entries are each found only by their own national id: each query returns exactly that person's one entry. A too-long national id is refused. |
| `PdfCacheStore.HitsOfUniqueTable` | src/main/kotlin/dab/poao/nav/no/pdfCaching/PdfCacheRepository.kt:64-67 | A UUID not in use matches no row. In a table with unique UUIDs, a UUID in use matches exactly one row. |
| `PdfCacheStore.Upsert` | src/main/kotlin/dab/poao/nav/no/pdfCaching/PdfCacheRepository.kt:52-60 | The row for the (case worker, national id) key is inserted or overwritten with the bytes, `updatedAt = now` and the new UUID. Every other key's row is unchanged, and the keys are the old keys plus this one. |
| `PdfCacheStore.Find` | src/main/kotlin/dab/poao/nav/no/pdfCaching/PdfCacheRepository.kt:64-67 | `singleOrNull`: a found row carries the UUID. With unique UUIDs, something is found iff the UUID is in use, and it is that row's bytes. |
| `PdfCacheStore.DeleteUuid` | src/main/kotlin/dab/poao/nav/no/pdfCaching/PdfCacheRepository.kt:70-74 | Removes exactly the rows carrying the UUID and keeps every other row unchanged. |
| `PdfCacheStore.Sweep` | src/main/kotlin/dab/poao/nav/no/pdfCaching/PdfCacheRepository.kt:76-80 | Keeps exactly the rows with `updatedAt >= threshold`, unchanged. Every row strictly older is removed. |
| `PdfCacheStore.UpsertKeepsUuidsUnique` | src/main/kotlin/dab/poao/nav/no/pdfCaching/PdfCacheRepository.kt:54-59 | Writing with a UUID not in use keeps the UUIDs unique. |
| `PdfCacheStore.DeleteKeepsUuidsUnique` | src/main/kotlin/dab/poao/nav/no/pdfCaching/PdfCacheRepository.kt:70-80 | Both deletes keep the UUIDs unique. |
| `PdfCacheStore.FindAfterUpsert` | src/main/kotlin/dab/poao/nav/no/pdfCaching/PdfCacheRepository.kt:52-67 | The UUID just written reads back the bytes just written. |
| `PdfCacheStore.UpsertRetiresOldUuid` | src/main/kotlin/dab/poao/nav/no/pdfCaching/PdfCacheRepository.kt:54-59 | Overwriting a key makes its previous UUID unfindable. |
| `PdfCacheStore.UpsertPreservesOtherLookups` | src/main/kotlin/dab/poao/nav/no/pdfCaching/PdfCacheRepository.kt:54 | Writing one key leaves every lookup of another row's UUID as it was. |
| `PdfCacheStore.FindAfterDelete` | src/main/kotlin/dab/poao/nav/no/pdfCaching/PdfCacheRepository.kt:64-74 | After `slett(uuid)` that UUID is not found, and every other UUID is found as before. |
| `PdfCacheStore.DeleteUnknownIsNoOp` | src/main/kotlin/dab/poao/nav/no/pdfCaching/PdfCacheRepository.kt:70-74 | Deleting a UUID that is not in use leaves the table unchanged. |
| `PdfCacheStore.FindAfterSweep` | src/main/kotlin/dab/poao/nav/no/pdfCaching/PdfCacheRepository.kt:76-80 | After a sweep, a row's UUID is found iff the row was written at or after the threshold. |
| `PdfCacheStore.PdfCacheRepository.constructor` | src/main/kotlin/dab/poao/nav/no/pdfCaching/PdfCacheRepository.kt:28-39 | A new table is empty and its UUIDs are unique. |
| `PdfCacheStore.PdfCacheRepository.Lagre` | src/main/kotlin/dab/poao/nav/no/pdfCaching/PdfCacheRepository.kt:52-62 | With fitting values, `lagre` upserts and returns the given bytes with the new UUID. Too-long values fail and leave the table unchanged. UUID uniqueness is kept either way. |
| `PdfCacheStore.PdfCacheRepository.Hent` | src/main/kotlin/dab/poao/nav/no/pdfCaching/PdfCacheRepository.kt:64-68 | Gives something iff some row carries the UUID, and then that row's bytes. |
| `PdfCacheStore.PdfCacheRepository.Slett` | src/main/kotlin/dab/poao/nav/no/pdfCaching/PdfCacheRepository.kt:70-74 | The new table is `DeleteUuid` of the old one. |
| `PdfCacheStore.PdfCacheRepository.SlettRaderSomIkkeHarBlittOppdatertEtter` | src/main/kotlin/dab/poao/nav/no/pdfCaching/PdfCacheRepository.kt:76-80 | The new table is `Sweep` of the old one at the threshold. |
| `PdfCacheStore.SweepScenario` | src/test/kotlin/dab/poao/nav/no/PdfRepositoryTest.kt:23-32 | The same key is written twice, then swept at a time between the writes. The first UUID is gone and the second is found. |
| `PdfCaching.PdfCache.constructor` | src/main/kotlin/dab/poao/nav/no/pdfCaching/PdfCache.kt:6-7 | The facade owns a new, empty repository. |
| `PdfCaching.PdfCache.Lagre` | src/main/kotlin/dab/poao/nav/no/pdfCaching/PdfCache.kt:9-11 | Returns exactly what the repository's upsert returns: the stored bytes and the new UUID. |
| `PdfCaching.PdfCache.HentFraCache` | src/main/kotlin/dab/poao/nav/no/pdfCaching/PdfCache.kt:13-15 | Returns the bytes of the row carrying the UUID, and none for an unknown UUID. A read is not a pickup: the row stays in place, so a second read with the same UUID returns the bytes again. |
| `PdfCaching.PdfCache.Slett` | src/main/kotlin/dab/poao/nav/no/pdfCaching/PdfCache.kt:17-19 | The repository's table loses exactly the rows with that UUID. |
| `PdfCaching.StoreTwiceSameKey` | src/main/kotlin/dab/poao/nav/no/pdfCaching/PdfCache.kt:9-15 | Storing twice under one (case worker, national id) pair gives two different UUIDs. The first UUID is then not found, and the second yields the second bytes. |
| `PdfCaching.DeleteLeavesOthersRetrievable` | src/main/kotlin/dab/poao/nav/no/pdfCaching/PdfCache.kt:13-19 | After a delete, the deleted UUID is not found, and another stored entry is still found with its bytes. |
| `PdfCaching.RoundTripScenario` | src/main/kotlin/dab/poao/nav/no/pdfCaching/PdfCache.kt:9-19 | A client stores, reads the bytes back, overwrites the key, then deletes, all through the facade. It follows the store-then-read pattern of `PdfCacheTest.kt`, which exercises the superseded `pdfCache` package, not this one. |
| `AzureAuth.ServedUntilOneSecondPastExpiry` | src/main/kotlin/dab/poao/nav/no/azureAuth/AzureClient.kt:79-82 | `hasExpired` is false iff now is at most expiry plus one second. A token is still served in the second after its expiry. |
| `AzureAuth.HasExpired` | src/main/kotlin/dab/poao/nav/no/azureAuth/AzureClient.kt:79-82 | `hasExpired` with the clock reading as a parameter: now is strictly after the expiry plus the one-second margin. Its promise is stated by `ServedUntilOneSecondPastExpiry`. |
| `AzureAuth.Reusable` | src/main/kotlin/dab/poao/nav/no/azureAuth/AzureClient.kt:63-70 | A cached token is served without a request exactly when its scope has an entry and now is at most one second past that entry's expiry. It is the entry's token, and a scope with no entry is never served from the cache. |
| `AzureAuth.Fetched` | src/main/kotlin/dab/poao/nav/no/azureAuth/AzureClient.kt:54-58 | A fetched token keeps the scope and the token text. At every clock reading it counts as unexpired exactly while now is at most the receive time plus `expires_in` + 1 seconds. |
| `AzureAuth.FetchedTokenReusedUntilExpiry` | src/main/kotlin/dab/poao/nav/no/azureAuth/AzureClient.kt:54-82 | A token fetched at time t is reused exactly while now is at most t plus `expires_in` + 1 seconds. |
| `AzureAuth.StoreLeavesOtherScopes` | src/main/kotlin/dab/poao/nav/no/azureAuth/AzureClient.kt:59 | Storing one scope's token changes nothing served for another scope. |
| `AzureAuth.TokenEndpoint.constructor` | src/main/kotlin/dab/poao/nav/no/azureAuth/AzureClient.kt:39-48 | The endpoint starts with no requests and answers as given. |
| `AzureAuth.TokenEndpoint.Post` | src/main/kotlin/dab/poao/nav/no/azureAuth/AzureClient.kt:39-48 | One client-credentials request is recorded, and it is answered for its scope and its position. |
| `AzureAuth.AzureClient.constructor` | src/main/kotlin/dab/poao/nav/no/azureAuth/AzureClient.kt:24 | The token map starts empty. |
| `AzureAuth.AzureClient.FetchAndStoreAccessToken` | src/main/kotlin/dab/poao/nav/no/azureAuth/AzureClient.kt:37-61 | Exactly one request is made. An answer stores the `Fetched` token under the scope, replacing only that entry. A failure is returned with the map unchanged. |
| `AzureAuth.AzureClient.GetAccessToken` | src/main/kotlin/dab/poao/nav/no/azureAuth/AzureClient.kt:63-71 | A reusable cached token, which is the one stored for the requested scope, is returned with no request and no change. Otherwise one request is made: an answer's token is stored and returned, and a failure leaves the map unchanged. |
| `AzureAuth.ReuseScenario` | src/main/kotlin/dab/poao/nav/no/azureAuth/AzureClient.kt:63-82 | Two calls within the token's lifetime plus margin make one request; a later call makes a second. |
| `Arkivering.Deliver` | src/main/kotlin/dab/poao/nav/no/plugins/ErrorHandling.kt:10-20 | An exception escaping a handler always gets a text answer with its message after the five-character prefix. The status is 400 exactly for `IllegalAccessException` and `BadRequestException`, and 500 exactly for every other kind. A finished handler's answer passes through unchanged, and no effect is undone. |
| `Arkivering.StoredEntries` | src/main/kotlin/dab/poao/nav/no/arkivering/ArkiveringRoute.kt:70-79 | The journal rows a handler appends, read from its effect trace: an entry is among them exactly when the trace holds a `Stored` effect for it, and there are no more of them than effects. |
| `Arkivering.StoredEntriesAppend` | src/main/kotlin/dab/poao/nav/no/arkivering/ArkiveringRoute.kt:70-79 | The rows stored by two consecutive stretches of effects are those of the first, then those of the second. |
| `Arkivering.Split` | src/main/kotlin/dab/poao/nav/no/arkivering/ArkiveringRoute.kt:111 | `split(" ")` always yields at least one piece, and no piece contains the delimiter. |
| `Arkivering.JoinSplit` | src/main/kotlin/dab/poao/nav/no/arkivering/ArkiveringRoute.kt:111 | Joining the pieces with the delimiter gives the header back. |
| `Arkivering.SplitWithoutSeparator` | src/main/kotlin/dab/poao/nav/no/arkivering/ArkiveringRoute.kt:111 | A header without a space splits into itself. |
| `Arkivering.SplitAfterLastSeparator` | src/main/kotlin/dab/poao/nav/no/arkivering/ArkiveringRoute.kt:111 | The text after the last delimiter is the last piece, and the pieces before it are those of the text before it. |
| `Arkivering.LastSeparator` | src/main/kotlin/dab/poao/nav/no/arkivering/ArkiveringRoute.kt:111-112 | A string holding the delimiter splits at its last occurrence into a head and a tail without it. |
| `Arkivering.LastSegment` | src/main/kotlin/dab/poao/nav/no/arkivering/ArkiveringRoute.kt:111-112 | The last piece contains no space, and it is either the whole header or what follows the header's last space. |
| `Arkivering.HentUtBearerToken` | src/main/kotlin/dab/poao/nav/no/arkivering/ArkiveringRoute.kt:109-112 | No header gives `IllegalArgumentException("No token found")`. A present header always yields its last space-free piece, which is a suffix after a space or the whole header. |
| `Arkivering.BearerHeaderYieldsToken` | src/main/kotlin/dab/poao/nav/no/arkivering/ArkiveringRoute.kt:109-112 | A `<scheme> <token>` header yields the token. |
| `Arkivering.HentNavIdentClaim` | src/main/kotlin/dab/poao/nav/no/arkivering/ArkiveringRoute.kt:114-119 | Succeeds exactly when the claim is present, giving the claim. A missing claim is a `RuntimeException`, which StatusPages answers with 500 and "500: Klarte ikke å hente NAVident claim fra tokenet". |
| `Arkivering.LagPdfgenPayload` | src/main/kotlin/dab/poao/nav/no/arkivering/ArkiveringRoute.kt:132-151 | The renderer payload: the payload's name, national id, period bounds, activities, threads and goal, plus the formatted timestamp. What reaches the renderer is stated by `RendererCalledOnceFirst`. |
| `Arkivering.LagJournalpostData` | src/main/kotlin/dab/poao/nav/no/arkivering/ArkiveringRoute.kt:153-173 | The archive data: the PDF, the payload's fields, the timestamp and the reference, field by field. `SuccessStoresOneEntry` states that the archive receives them unchanged. |
| `Arkivering.RenderAndFile` | src/main/kotlin/dab/poao/nav/no/arkivering/ArkiveringRoute.kt:45-65 | The `runCatching` block: render, then file on `PdfSuccess`. `FailedPdfGen` becomes `DokarkFail` with its message, and any exception becomes `DokarkFail("Uventet feil")`. Stated by `RenderFailureStopsArchiving` and `CollaboratorExceptionBecomesUnexpectedError`. |
| `Arkivering.ArkiverSteps` | src/main/kotlin/dab/poao/nav/no/arkivering/ArkiveringRoute.kt:35-83 | The steps of `/arkiver` in source order: token, claim, body, render and file, branch on the result, parse the period id, store, answer. An exception ends the steps and goes to StatusPages. |
| `Arkivering.Arkiver` | src/main/kotlin/dab/poao/nav/no/arkivering/ArkiveringRoute.kt:35-83 | `/arkiver` as the client sees it. It is the function `PostArkiver` is proved equal to, and all `/arkiver` lemmas are stated about it. |
| `Arkivering.MissingTokenRejected` | src/main/kotlin/dab/poao/nav/no/arkivering/ArkiveringRoute.kt:36 | Without an `Authorization` header, `/arkiver` calls nothing, stores nothing and answers 500 "500: No token found". |
| `Arkivering.MissingClaimRejected` | src/main/kotlin/dab/poao/nav/no/arkivering/ArkiveringRoute.kt:36-38 | Without the claim, whatever the body, `/arkiver` calls nothing, stores nothing and answers 500 with the claim message. |
| `Arkivering.MalformedBodyRejected` | src/main/kotlin/dab/poao/nav/no/arkivering/ArkiveringRoute.kt:38 | An undecodable body is answered 400 with "400: " and the decoder's message, before any call. |
| `Arkivering.RendererCalledOnceFirst` | src/main/kotlin/dab/poao/nav/no/arkivering/ArkiveringRoute.kt:40-48 | Once the request is read, the renderer is the first outbound call and is called once. It is sent the payload's data and the request's timestamp as formatted. |
| `Arkivering.RenderFailureStopsArchiving` | src/main/kotlin/dab/poao/nav/no/arkivering/ArkiveringRoute.kt:46-68 | On `FailedPdfGen` the archive is not called and nothing is stored. The answer is 500 with the renderer's message. |
| `Arkivering.CollaboratorExceptionBecomesUnexpectedError` | src/main/kotlin/dab/poao/nav/no/arkivering/ArkiveringRoute.kt:45-68 | An exception from the renderer or the archive is answered 500 "Uventet feil", and nothing is stored. |
| `Arkivering.SuccessStoresOneEntry` | src/main/kotlin/dab/poao/nav/no/arkivering/ArkiveringRoute.kt:40-80 | On success the archive is sent the rendered PDF and the payload's fields unchanged, with the request's timestamp and reference. Exactly one entry is stored: claim, payload national id, the archive's record id, the parsed period id, the same timestamp and reference. The answer is 200 with the timestamp. |
| `Arkivering.AtMostOneEntryAndOnlyAfterFiling` | src/main/kotlin/dab/poao/nav/no/arkivering/ArkiveringRoute.kt:45-80 | Whatever the collaborators answer, at most one entry is stored. It is stored only after the archive answered `DokarkSuccess` with that entry's record id, and only with a 200 answer. The entry and the filed data carry the request's timestamp and reference. Conversely, every 200 answer stored exactly one entry. |
| `Arkivering.FiledButPeriodIdUnparsable` | src/main/kotlin/dab/poao/nav/no/arkivering/ArkiveringRoute.kt:69-79 | If the archive answers `DokarkSuccess` but `UUID.fromString` fails, the document is already filed and nothing is stored. The `IllegalArgumentException` is answered with 500 and its message. |
| `Arkivering.PostArkiver` | src/main/kotlin/dab/poao/nav/no/arkivering/ArkiveringRoute.kt:35-83 | The handler run step by step against the journal equals `Arkiver`. The journal gains exactly the entries the trace stores. |
| `Arkivering.SisteJournalfoert` | src/main/kotlin/dab/poao/nav/no/arkivering/ArkiveringRoute.kt:94-95 | The latest creation time among the rows: none iff there are no rows, otherwise one row's time and not exceeded by any row's. |
| `Arkivering.PreviewPrelude` | src/main/kotlin/dab/poao/nav/no/arkivering/ArkiveringRoute.kt:86-95 | The part of `/forhaandsvisning` before its final branch: decode, render, parse the period id, look up the period's entries and take the latest time. An exception ends it. |
| `Arkivering.ForhaandsvisningAsWritten` | src/main/kotlin/dab/poao/nav/no/arkivering/ArkiveringRoute.kt:85-106 | The preview exactly as written. On `FailedPdfGen` it answers nothing (`PreviewRenderFailureUnanswered`). |
| `Arkivering.Forhaandsvisning` | src/main/kotlin/dab/poao/nav/no/arkivering/ArkiveringRoute.kt:85-106 | The corrected preview, answering `FailedPdfGen` with 500 and its message (`PreviewRenderFailureAnswered`). Otherwise it is identical to the version as written (`PreviewVersionsAgreeOtherwise`), and `PostForhaandsvisning` is proved equal to it. |
| `Arkivering.PreviewRenderFailureUnanswered` | src/main/kotlin/dab/poao/nav/no/arkivering/ArkiveringRoute.kt:96-105 | As written, a preview whose renderer reports `FailedPdfGen` sends no answer. |
| `Arkivering.PreviewRenderFailureAnswered` | src/main/kotlin/dab/poao/nav/no/arkivering/ArkiveringRoute.kt:96-105 | Corrected, the same preview is answered 500 with the renderer's message. |
| `Arkivering.PreviewVersionsAgreeOtherwise` | src/main/kotlin/dab/poao/nav/no/arkivering/ArkiveringRoute.kt:85-106 | The corrected preview and the preview as written answer alike whenever the renderer does not report a failure. |
| `Arkivering.PreviewSucceeds` | src/main/kotlin/dab/poao/nav/no/arkivering/ArkiveringRoute.kt:85-102 | A preview whose renderer succeeds and whose period id parses is answered 200 by both versions. The answer carries the rendered PDF, the latest creation time among the period's entries of the type, and no cache id. |
| `Arkivering.PreviewReadsOnly` | src/main/kotlin/dab/poao/nav/no/arkivering/ArkiveringRoute.kt:85-106 | Neither the preview as written (`ForhaandsvisningAsWritten`) nor the corrected preview (`Forhaandsvisning`) stores an entry or calls the archive. Once the body is decoded, each calls the renderer first and exactly once, with the payload and the formatted timestamp. A 200 answer from either carries the rendered PDF, the latest creation time among the period's entries of the type or none, and no cache id. |
| `Arkivering.PostForhaandsvisning` | src/main/kotlin/dab/poao/nav/no/arkivering/ArkiveringRoute.kt:85-106 | The preview run step by step against the journal, which it does not modify, equals the corrected `Forhaandsvisning`. |

## Left out

- HTTP clients (renderer, archive, distribution): their network calls are left out. Only their answers are modelled, as `PdfgenResult`, `DokarkResult` or a thrown exception. The distribution client is not used by the modelled handlers.
- The token request of `fetchAndStoreAccessToken`: its form fields, endpoint configuration and JSON decoding are left out. The `TokenEndpoint` class stands for it, answering each request from a given function.
- Logging, including the line that logs the client secret: it has no effect on behaviour.
- Norwegian date formatting in `lagPdfgenPayload`: it is a `java.time` locale formatter, kept as the abstract `formatTidspunkt` collaborator.
- JSON decoding of request bodies: a body is either the decoded payload or the decoder's error message.
- `UUID.fromString`: it is the abstract `uuidFromString` collaborator, whose failure is an `IllegalArgumentException` with its message.
- Clocks and random UUIDs: they are parameters. The code reads the clock twice in the token cache (the expiry check and after the answer), so `GetAccessToken` takes two readings.
- Persistence plumbing (transactions, connection pool, migrations): only the table semantics are modelled.
- The journal table's generated integer id and the cache table's `created_at` column: the code never writes either.
- The database's storage of timestamps (its precision, and the text round trip through `toString`/`parse`): timestamps are stored as given.
- `LocalDateTime` range limits and the overflow of `plusSeconds`: timestamps are unbounded integers.
- `Journal.Repository.HentJournalposterForFnr`: states which rows are returned, not their order, because the database promises no order. The model returns them in table order.
- `Journal.Repository.HentJournalposterForPeriode`: likewise states membership only.
- The database's existing contents: the constructors of `Journal.Repository` and `PdfCacheStore.PdfCacheRepository` start from an empty table. The service instead connects to a database that already exists and may hold rows; every lemma about the tables holds for any starting table.
- Superseded cache packages (`pdfCache`, `pdfcache`, `database/PdfCacheRepository.kt`): they are not wired into the application.
- Framework wiring: routing, authentication and token validation are left out. The `NAVident` claim of the validated token comes with the request.
- The health routes and the metrics registry: only the logging filter of `Monitoring.kt` is modelled.
- What the web framework sends when a handler returns without answering: the model records it as `NoResponse`.
- Concurrency between requests and any sweeper schedule: every operation is one sequential step.

## Findings

| source | as written | input that shows it | evidently intended | confidence | as-written member | corrected member |
|---|---|---|---|---|---|---|
| src/main/kotlin/dab/poao/nav/no/arkivering/ArkiveringRoute.kt:104 | On `FailedPdfGen`, `/forhaandsvisning` builds a `DokarkFail` value, discards it and returns without answering (`Arkivering.ForhaandsvisningAsWritten`). | A well-formed preview request whose renderer answers `FailedPdfGen("...")`, with a parseable period id. | Answer 500 with the renderer's message, as `/arkiver` does for the same result at line 68 (`Arkivering.Forhaandsvisning`, used by `PostForhaandsvisning`). | not executed | `Arkivering.PreviewRenderFailureUnanswered` | `Arkivering.PreviewRenderFailureAnswered` |
