# A verified model of the media API

The repository is a Go service over PostgreSQL: media items with tags, kept per tenant in shared
tables; files in a storage backend; a background job queue; a rate limiter; an idempotency
middleware; an API-key cache. This project models the parts with state, concurrency or arithmetic
and proves what they guarantee. A table is a finite map, an SQL statement a step on it, and each
repository method is a Dafny method proved against a function that says what its transaction does.

`dafny verify dfyconfig.toml` checks everything.

| files | subject |
|---|---|
| `Common`, `Counting` | options, results, errors, ids, times; sizes of sets and images |
| `JobQueue`, `Worker` | the jobs table and one worker poll, in place |
| `JobSystem`, `JobSafety`, `JobProgress`, `JobOutcomes` | producers, workers and cleanup interleaved statement by statement, with `SKIP LOCKED`, aborted dequeues and calls that fail; each row told from its order, its starts and its last outcome |
| `Ordering`, `Keyset`, `Cursor` | sorted listings, keyset pages, opaque cursors |
| `Catalog`, `CatalogQueries`, `CatalogRepo` | tags, media and media_tags: what each transaction does, and the repositories' methods |
| `TenantStore`, `TenantIsolation` | the reference store of a single tenant, and the proof that the shared tables behave as one such store per tenant |
| `Sanitize`, `UnsafeRunes`, `PlainNames` | the name pipeline; exactly which text it rejects; plain names code point by code point |
| `MediaService`, `MediaCommands`, `TagService` | bounds, deduplication, filters, uploads, attaching tags |
| `CanonicalNames` | every stored name stays in normal form, and is the one that replies show |
| `AttachStatements` | attaching tags, statement by statement |
| `Walks`, `TagWalks`, `ShownTags` | a client paging through a listing while others change the tables; when an item comes back without a tag it was selected by |
| `Traces`, `TagResolution` | what a run takes away and gives back; concurrent `CreateOrGet` calls, statement by statement |
| `MediaSaga` | files and rows under failures and crashes |
| `RateLimit`, `Eviction` | the token bucket against its whole history; when eviction shows |
| `Idempotency`, `IdempotencyRuns` | capturing writer, response store, middleware; their interleavings |
| `KeyCache`, `KeyCacheRuns` | the TTL cache of key lookups; its interleavings |

Methods carry the source's imperative form (fields updated in place, loops with invariants). They
are proved against functions, and the theorems are lemmas about those functions or about runs of a
transition system built from them.

## Findings

Where the code and its comments or intent differ, the model follows the code, and a lemma says
exactly what holds.

- Cleaning up idle rate-limit buckets is invisible to clients if and only if the burst is below one
  or ten minutes refill all of it (`Eviction.WhenEvictionIsUnobservable`).
- The idempotency middleware promises at most once per key. In any state the handler can be started
  for a key, at once and with working reads, if and only if the store holds no unexpired row for it
  (`IdempotencyRuns.HandlerCanStartIff`): requests that overlap before the first Set all run it
  (`IdempotencyRuns.OverlapRunsTwice`), and so do requests after the row expires.
- After a Set that request's own response is replayed, as long as no other request sets a row, if and
  only if no row had the key or an unexpired row held the same response, and then every replay until
  the row expires is that response (`IdempotencyRuns.OwnResponseIsReplayedIff`). The insert is
  blocked by an overlapping request's row, and also by an expired one that has not been cleaned up
  (`IdempotencyRuns.ExpiredRowBlocks` gives the run).
- The wrapper that captures responses keeps the code of the last header, the client gets the first: a
  replay repeats what the first client was sent if and only if the two agree
  (`Idempotency.CapturedIsSent`, `IdempotencyRuns.ReplaysAreGenuine`). They do not after a body written
  before the header (`Idempotency.BodyBeforeHeader`), nor after the fallback of writeJSON to
  `http.Error` (internal/adapter/http/handler/response.go:13-19), but that one is not cached
  (`Idempotency.RepliesAreCachedAsSent`). The one route behind the middleware answers through writeJSON
  and writeError only, so there every replay is exact (`IdempotencyRuns.RouteReplaysAreExact`).
- Invalidating the key cache guarantees that later answers come from later lookups if and only if
  no lookup is between its check and its cache write (`KeyCacheRuns.ClearIsCleanIff`). Suspending a tenant
  takes effect within ttl under the same condition (`KeyCacheRuns.SuspensionTakesEffect`).
- A `CreateOrGet` that met a row of its name fails, its SELECT coming back empty, if and only if
  between its two statements some other request deleted the tag or renamed it, and no row got the
  name afterwards (`TagResolution.SelectComesBackEmptyIff`).
- The comment of `SanitizeName` has every control, zero-width and bidi character rejected. The check
  runs after the edits, so it passes a text that has such runes if and only if each of them is one
  the edits remove: a form feed next to a space, tab, line break, form feed or listed
  variant space, or a rune with nothing but white space before it or after it, as a vertical tab, a form
  feed or U+0085 at an end can be (`UnsafeRunes.EditIsSafeIff`, `UnsafeRunes.AcceptedIff`).
- `MediaRepo.Create` drops tag ids the tenant does not have, although the port asks for ErrNotFound
  (internal/port/repository.go:122): the port's promise is met if and only if the tenant has every
  tag (`TenantIsolation.CreateMeetsPortIff`).
- Listing media reads twice under READ COMMITTED, the page and then its tags. An item comes back
  without a tag it was selected by if and only if, between the two reads, a request of its tenant took
  the tag from it and no later one gave it back (`ShownTags.ShowsRequestedIff`). Taking is deleting or
  detaching the tag, deleting the item, or, for a selection by name, renaming the tag; giving is
  attaching such a tag, renaming a linked one to the name, or creating the item anew with it.
  `ShownTags.ReturnedWithoutItsTag` and `ShownTags.ReturnedUnderAnotherName` are such replies.
- `power(2, attempts - 1)` at `attempts = 0` is one half, so the shortest delay `Fail` can set is
  15 seconds; after a start it is 30 or 60 (`JobQueue.Backoff`, `JobSafety.RetryWaits`).

## Model

| member | source | states |
|---|---|---|
| JobQueue.JobQueue.Enqueue | internal/adapter/postgres/job_queue.go:35-48 | adds exactly one pending row with the table's defaults and touches no other |
| JobQueue.JobQueue.Dequeue | internal/adapter/postgres/job_queue.go:65-113 | starts an earliest due pending row that no open transaction has locked, or reports none and there is none |
| JobQueue.JobQueue.Complete | internal/adapter/postgres/job_queue.go:118-127 | completes the row with that id if there is one; nothing else changes |
| JobQueue.JobQueue.Fail | internal/adapter/postgres/job_queue.go:136-158 | dead-letters an exhausted row, otherwise reschedules it with doubled delay |
| JobQueue.JobQueue.Cleanup | internal/adapter/postgres/job_queue.go:200-216 | removes exactly the terminal rows past retention and counts them |
| JobQueue.Backoff | internal/adapter/postgres/job_queue.go:145-148 | the delay is never under 15 seconds, and at least 30 once the job has started |
| JobQueue.BackoffIsExponential | internal/adapter/postgres/job_queue.go:145-148 | the recursive delay is 30 s * 2^(attempts - 1) |
| Worker.Worker.constructor | internal/service/worker.go:44-61 | at least one worker, and as many as asked for otherwise |
| Worker.Worker.ProcessOne | internal/service/worker.go:101-157 | one dequeue and the matching Complete or Fail, column by column: completed with the handler's result, or carrying its text or the unknown type's, failed on the last attempt and due 30 * 2^(attempts - 1) s later otherwise; a failed settlement leaves the row running |
| JobSystem.NextKeepsInv | internal/adapter/postgres/job_queue.go:35-216 | every statement of every interleaving keeps exclusivity, row consistency, backoff spacing and accounting |
| JobSafety.ReachableStates | internal/service/worker.go:101-157 | in every interleaving no two workers hold one job, a held job is running (or pending while being dequeued), attempts agree with status, completed_at is set exactly in terminal states |
| JobSafety.TerminalStays | internal/adapter/postgres/job_queue.go:71-158 | a completed or dead-lettered job never changes; once removed it stays removed |
| JobSafety.OnlyCleanupRemoves | internal/adapter/postgres/job_queue.go:200-216 | a step removes a row iff it is a cleanup and the row is terminal and past retention |
| JobSafety.Conservation | internal/adapter/postgres/job_queue.go:35-216 | enqueued = pending + running + completed + failed + cleaned, in every reachable state |
| JobSafety.BackoffTimeline | internal/adapter/postgres/job_queue.go:138-153 | a job starts at most three times, the k-th restart at least 30 * (2^k - 1) seconds after the first start |
| JobSafety.RetryWaits | internal/adapter/postgres/job_queue.go:136-158 | a job that fails with attempts left is due exactly 30 * 2^(attempts - 1) seconds later, thirty or sixty |
| JobOutcomes.JobsAreAsOrdered | internal/adapter/postgres/job_queue.go:35-113 | in every reachable state a stored job, and the copy a worker executes, has the tenant, type and payload its Enqueue was given |
| JobOutcomes.CompletedIffSucceeded | internal/service/worker.go:119-157 | a job is completed iff its last settled execution succeeded and its type is registered, and then with that result and time |
| JobOutcomes.FailuresAreRetriedOrFinal | internal/adapter/postgres/job_queue.go:136-158 | any other settled job carries the handler's text or the unknown type's; it is failed iff it has had three starts and otherwise due exactly 30 or 60 s after the failure |
| JobOutcomes.UnsettledJobsWait | internal/adapter/postgres/job_queue.go:35-113 | a job none of whose executions was settled is pending since it was enqueued, or running since its last start |
| JobSafety.ProcessOneIsARun | internal/service/worker.go:101-157 | the sequential worker is a run of the transition system: lock, commit, time, settle |
| JobSafety.FailedSettlementIsARun | internal/service/worker.go:149-153 | so is a poll whose Complete or Fail errors, leaving the row running |
| JobProgress.StepUsesUp | internal/adapter/postgres/job_queue.go:71-158 | each committed dequeue, completion and failure strictly lowers what remains; only a new job raises it, by six |
| JobProgress.WorkIsBounded | internal/adapter/postgres/job_queue.go:35-158 | a run holds at most the remaining work of its start plus six steps per new job |
| JobProgress.BoundedOvertaking | internal/adapter/postgres/job_queue.go:73-80 | while a due job waits, the committed dequeues number at most the pending jobs then scheduled no later or locked, plus those enqueued at the very instant it is scheduled for, and each is of one of these jobs |
| JobProgress.LaterNeverOvertakes | internal/adapter/postgres/job_queue.go:73-80 | a job enqueued, rescheduled or pending with a strictly later schedule, and not locked already, is never started before the waiting one |
| Ordering.Sort | internal/adapter/postgres/media_repo.go:280 | ORDER BY over a strict total order: each element once, increasing |
| Ordering.SortedIsUnique | internal/adapter/postgres/media_repo.go:280 | there is only one such listing, so results do not depend on the plan |
| Keyset.PageFacts | internal/adapter/postgres/media_repo.go:280-306 | a page is sorted, within the limit, strictly after the cursor; whatever it leaves out lies after the next cursor |
| Keyset.NextPageResumes | internal/adapter/postgres/media_repo.go:301-306 | on an unchanged table the next cursor resumes exactly where the page ended |
| Keyset.WalkIsComplete | internal/adapter/postgres/media_repo.go:280-306 | the pages concatenate to the listing in max(1, ceil(N / limit)) pages, all full but the last |
| Keyset.NeverTwice | internal/adapter/postgres/media_repo.go:260-306 | whatever changes between calls, returned keys strictly advance |
| Keyset.ExactlyOnce | internal/adapter/postgres/media_repo.go:260-306 | a finished walk returns exactly once each key present at every call |
| Cursor.FollowedIsReturned | internal/service/cursor.go:34-89 | passing opaque strings back and stopping at the empty one loses and adds nothing |
| CatalogRepo.TagRepo.CreateOrGet | internal/adapter/postgres/tag_repo.go:62-94 | inserts the name or returns the one row of that name, keeping the invariant |
| CatalogRepo.TagRepo.List | internal/adapter/postgres/tag_repo.go:107-151 | the loop over limit + 1 rows returns the keyset page and cursor: names ascending, then ids, all after the cursor |
| CatalogRepo.TagPageLeavesLaterOut | internal/adapter/postgres/tag_repo.go:107-151 | a tag of the tenant missing from the first page comes after every tag on it, by (name, id) |
| CatalogRepo.TagRepo.Rename | internal/adapter/postgres/tag_repo.go:173-197 | not found, conflict with another tag of the tenant, or the new name |
| CatalogRepo.TagRepo.Delete | internal/adapter/postgres/tag_repo.go:205-220 | removes the tag and, by cascade, its links |
| CatalogRepo.MediaRepo.Create | internal/adapter/postgres/media_repo.go:54-93 | row and links in one transaction, unknown tags skipped, everything rolled back on a failed insert |
| CatalogRepo.MediaRepo.QueryMediaTags | internal/adapter/postgres/media_repo.go:145-179 | ORDER BY name alone already fixes the order |
| CatalogRepo.MediaRepo.GetByID | internal/adapter/postgres/media_repo.go:110-138 | the tenant's item with its tags, or not found |
| CatalogRepo.MediaRepo.List | internal/adapter/postgres/media_repo.go:218-349 | filter, cursor, limit + 1 and batch tag load give the specified page of fresh objects, newest first by created_at, then larger id first, if the tables do not change between the two statements; what the first page leaves out is older |
| CatalogRepo.MediaRepo.PageQuery | internal/adapter/postgres/media_repo.go:260-306 | the first statement alone: the page, its cursor, and fresh objects holding its rows; by their own columns the items go from newer to older, all older than the cursor, and a selected item that the first page leaves out is older than all of it |
| CatalogRepo.MediaRepo.LoadTagsInto | internal/adapter/postgres/media_repo.go:309-346 | the second statement alone, whatever happened since: the map-and-append loop over one stream, in place, leaves each item with its own current tag list |
| CatalogRepo.MediaRepo.Delete | internal/adapter/postgres/media_repo.go:358-377 | removes row and links and returns the file path |
| CatalogRepo.MediaRepo.AttachTags | internal/adapter/postgres/media_repo.go:391-442 | insert, rows-affected shortcut and rollback have the specified effect |
| CatalogRepo.MediaRepo.DetachTag | internal/adapter/postgres/media_repo.go:453-474 | removes one link of the tenant or nothing |
| CatalogQueries.NameOrderDecides | internal/adapter/postgres/media_repo.go:145-160 | any answer sorted by name is the answer, since one item's tags have distinct names |
| CatalogQueries.BatchAgrees | internal/adapter/postgres/media_repo.go:309-346 | any name-sorted answer to the batch query gives each item exactly the list GetByID returns |
| TenantIsolation.CountEqualsContainment | internal/adapter/postgres/media_repo.go:236-258 | COUNT(DISTINCT) = N iff every requested entry is found and none is repeated |
| TenantIsolation.IdsFilterProjects | internal/adapter/postgres/media_repo.go:237-247 | the filter by id selects an item iff it carries every tag of a duplicate-free list |
| TenantIsolation.NamesFilterProjects | internal/adapter/postgres/media_repo.go:248-258 | the same by name, from name uniqueness and tenant agreement of links |
| TenantIsolation.AddLinksOutcome | internal/adapter/postgres/media_repo.go:69-78 | the insert loop fails iff a known tag repeats or is linked already; otherwise links exactly the known tags |
| TenantIsolation.AttachDecision | internal/adapter/postgres/media_repo.go:417-439 | the rows-affected shortcut never alters the answer |
| TenantIsolation.CreateMeetsPortIff | internal/port/repository.go:115-127 | Create meets the promised ErrNotFound for unknown tag ids iff the tenant has every tag |
| TenantIsolation.ExecSimulates | internal/adapter/postgres/tx.go:35-58 | every operation, as one undisturbed transaction, acts on its tenant's projection as the single-tenant operation does, with the same reply, leaves the other projections alone and keeps the invariant |
| TenantIsolation.RowLevelSecurityIsInvisible | internal/adapter/postgres/migrations/006_rls.up.sql:17-67 | the policies' USING clauses change no reply and no table, and every row written satisfies WITH CHECK |
| TenantIsolation.EachTenantAlone | internal/adapter/postgres/tx.go:35-58 | in any interleaving of whole transactions each tenant gets the replies and rows of a database of its own |
| Sanitize.SanitizeName | internal/service/sanitize.go:138-177 | the stages and the rune loop compute the specified pipeline |
| Sanitize.AcceptedIsCanonical | internal/service/sanitize.go:138-177 | accepted output is normalised, trimmed, has no double or listed space and no unsafe rune, and fits in 255 bytes |
| Sanitize.CanonicalIsFixed | internal/service/sanitize.go:138-177 | every such name is returned unchanged |
| Sanitize.Idempotent | internal/service/sanitize.go:138-177 | sanitizing twice is sanitizing once |
| Sanitize.OrdinaryText | internal/service/sanitize.go:147-174 | for normalised safe text without U+1680 it is split on whitespace, join with single spaces, check emptiness and length |
| UnsafeRunes.EditIsSafeIff | internal/service/sanitize.go:147-164 | the unsafe-rune check passes iff every unsafe rune is a form feed next to a space, tab, line break, form feed or listed variant, or has only white space before or after it; the result is empty iff the text is white space |
| UnsafeRunes.AcceptedIff | internal/service/sanitize.go:138-177 | exactly which text is accepted |
| UnsafeRunes.FormFeeds | internal/service/sanitize.go:109-164 | between two words one form feed is rejected, several are accepted as a space |
| PlainNames.RuneBetweenWords | internal/service/sanitize.go:50-177 | which single code points between two words of letters become a space, which are rejected and which stay, listed by number |
| PlainNames.OneRune | internal/service/sanitize.go:50-177 | which names of one code point are rejected, listed by number |
| PlainNames.LettersAreAccepted | internal/service/sanitize.go:167-174 | a name of letters is accepted unchanged iff it has 1 to 255 of them |
| PlainNames.NameLength | internal/service/sanitize.go:172 | the length counted is one byte a character, and one more for each from U+0080, U+0800 and U+10000 on |
| MediaService.ClampLimit | internal/service/media_service.go:243-248 | every raw limit becomes one in 1..100: those already there stay, none means 50, more means 100 |
| MediaService.Deduplicate | internal/service/media_service.go:359-375 | the seen-map loop keeps each entry once |
| MediaService.DedupKeepsOrder | internal/service/media_service.go:354-375 | in the order of first appearance |
| MediaService.SanitizeFilterNames | internal/service/media_service.go:265-280 | sanitized, then deduplicated, or a validation error |
| MediaService.PreparedFilterIsContainment | internal/service/media_service.go:255-280 | after preparation, counting selects exactly the items carrying every requested tag, in whatever spelling and however often requested |
| MediaService.List | internal/service/media_service.go:242-287 | the reply is the page of the tenant's own wanted items, newest first and older than the cursor; it is a validation error iff the cursor is malformed, there are more than fifty ids or names, or a name cannot be sanitized |
| MediaService.RepliesAreNewestFirst | internal/adapter/postgres/media_repo.go:260-306 | whatever happens between the two reads, the items' own columns descend: newer first, at the same moment the larger id first, all older than the cursor |
| MediaService.FirstPageIsNewest | internal/adapter/postgres/media_repo.go:260-306 | a wanted item that the first page leaves out is older, or as old with a smaller id, than every item on it, and the page is full |
| MediaService.ReplyFromTwoReads | internal/adapter/postgres/media_repo.go:283-346 | what the two statements read, from two states of the shared tables, is the reply the tenant's own store would give at those two moments |
| MediaService.ReadAtOneMoment | internal/service/media_service.go:242-287 | the two-moment reply on an unchanged store is the reply of that moment |
| TagService.List | internal/service/tag_service.go:91-109 | the reply is the page of the tenant's own tags, names ascending, all after the cursor, or a validation error iff the cursor is malformed |
| TagService.Create | internal/service/tag_service.go:68-80 | the sanitized name becomes the name of exactly one tag of the tenant, created iff there was none; nothing else changes |
| TagService.Rename | internal/service/tag_service.go:123-129 | the sanitized name, not found, or a conflict iff another tag of the tenant has the name; renaming a tag to its own name succeeds |
| MediaCommands.ResolveTagNames | internal/service/media_service.go:413-424 | each name becomes a tag of the tenant; only missing tags are added; the first bad name ends the call |
| MediaCommands.AttachDeduped | internal/service/media_service.go:426-430 | on deduplicated ids the repository call succeeds iff media and ids are the tenant's; links become old union requested, or stay |
| MediaCommands.AttachAgain | internal/adapter/postgres/media_repo.go:391-442 | repeating it changes nothing |
| AttachStatements.AttachAtOneMoment | internal/adapter/postgres/media_repo.go:391-442 | the three statements on unchanged tables are the transaction |
| AttachStatements.SucceedsIff | internal/adapter/postgres/media_repo.go:393-439 | with each statement at its own moment: success iff the item was there at the check, the rows can be inserted, and all tags are the tenant's and new at the INSERT or the tenant's at the COUNT |
| AttachStatements.LinksAllIff | internal/adapter/postgres/media_repo.go:417-439 | a success links every requested tag iff each was the tenant's at the INSERT |
| MediaCommands.AttachTagsTo | internal/service/media_service.go:408-433 | the whole call: when it succeeds, with which links and reply, and which error otherwise; other tenants untouched |
| MediaCommands.RetryChangesNothing | internal/service/media_service.go:402-433 | after a success, the same call changes nothing and answers the same |
| MediaCommands.Create | internal/service/media_service.go:131-206 | succeeds iff name and tag names can be sanitized, there are at most fifty tags, the kind is known and storage and database work; the item then has the sanitized name, the kind, the file's own name and size and the stored path, and the links asked for; otherwise the stated error and no media change; calls on storage and table form a run of the saga |
| CanonicalNames.CreateKeepsCanonical | internal/service/media_service.go:131-206 | if every stored media and tag name is in normal form, so it is after a successful upload |
| CanonicalNames.FailureKeepsCanonical | internal/service/media_service.go:143-160 | and after one that fails, with the tags it left behind |
| CanonicalNames.AttachKeepsCanonical | internal/service/media_service.go:402-433 | and after attaching tags by name |
| CanonicalNames.HistoryKeepsCanonical | internal/service/tag_service.go:68-129 | and after any history of operations whose names were sanitized |
| CanonicalNames.NameIsShown | internal/adapter/postgres/media_repo.go:110-138 | GetByID shows the stored name and columns of an item until it is deleted, whatever else happens |
| CanonicalNames.PagesShowNames | internal/adapter/postgres/media_repo.go:283-306 | every item of a page shows the stored, canonical name |
| MediaCommands.Delete | internal/service/media_service.go:297-314 | row first, then file, as a run of the saga; a failing file deletion is not reported |
| MediaSaga.NextKeepsInv | internal/service/media_service.go:173-205 | every step of every interleaving keeps each stored file accounted for exactly once |
| MediaSaga.ReachableStates | internal/service/media_service.go:173-205 | every row's file exists, paths are unique, and the files are the disjoint union of row files, in-flight files and recorded leaks |
| MediaSaga.QuiescentStates | internal/service/media_service.go:297-314 | with no failed cleanup and no crash, once all requests are done the files are exactly the rows' files |
| MediaSaga.CreateIsARun | internal/service/media_service.go:173-205 | an undisturbed create leaves row and file, or neither, or one recorded leak |
| MediaSaga.DeleteIsARun | internal/service/media_service.go:297-314 | an undisturbed delete leaves neither, or one recorded leak |
| Walks.MediaWalkDescends | internal/adapter/postgres/media_repo.go:260-306 | under any concurrent requests of any tenants the client sees (created_at, id) strictly decrease, so the newest come first and none comes twice |
| Walks.MediaWalkIsExact | internal/adapter/postgres/media_repo.go:260-306 | a finished walk returned exactly once each item that was there and wanted whenever a page was read |
| Walks.MediaWalkIsSound | internal/adapter/postgres/media_repo.go:283-346 | every item received was wanted, with these columns, when some call read its page, and had these tags when that call read them |
| ShownTags.ShowsRequestedIff | internal/adapter/postgres/media_repo.go:236-346 | an item lacks a requested tag iff a request of its tenant took it away between the two reads and no later one gave it back |
| ShownTags.AttachmentAfterStep | internal/adapter/postgres/media_repo.go:391-474 | which operations take a requested tag from an item or give it, by id or by name |
| ShownTags.MediaWalkShowsIff | internal/adapter/postgres/media_repo.go:236-346 | every item a walk returns shows each requested tag unless it was lost between the two reads of the call that returned it |
| ShownTags.OneRemovalLoses | internal/adapter/postgres/media_repo.go:309-346 | from any state, one removal between the reads is enough |
| ShownTags.ReturnedWithoutItsTag | internal/adapter/postgres/media_repo.go:309-346 | an item selected by a tag id is returned with no tags after a deletion or a detachment in between |
| ShownTags.ReturnedUnderAnotherName | internal/adapter/postgres/media_repo.go:309-346 | an item selected by a tag name is returned with the renamed tag |
| Walks.UnchangingMediaPages | internal/service/media_service.go:242-287 | for any raw limit the pages make up the listing in max(1, ceil(N / limit)) pages |
| Walks.UnchangingMedia | internal/service/media_service.go:242-287 | n calls return the first n pages, and the next cursor is empty exactly on the last |
| TagWalks.TagWalkAscends | internal/adapter/postgres/tag_repo.go:113-151 | (name, id) strictly increases through any walk |
| TagWalks.TagWalkIsExact | internal/adapter/postgres/tag_repo.go:113-151 | a finished walk returned exactly once each tag not renamed or deleted meanwhile |
| TagWalks.UnchangingTagPages | internal/service/tag_service.go:91-109 | for any raw limit the tag pages make up the listing in max(1, ceil(N / limit)) pages |
| TagWalks.UnchangingTags | internal/service/tag_service.go:91-109 | n calls return the first n of them, and the next cursor is empty exactly on the last |
| TagResolution.NextKeepsUnique | internal/adapter/postgres/migrations/005_tenancy.up.sql:61 | no statement of any caller, deletion or rename breaks the unique index |
| TagResolution.CallersAgree | internal/adapter/postgres/tag_repo.go:62-94 | however INSERTs and SELECTs interleave, and whatever happens to other names, all answers for a name give one id; exactly one says created if the name was new and none otherwise |
| TagResolution.SelectComesBackEmptyIff | internal/adapter/postgres/tag_repo.go:69-87 | a caller whose INSERT met the row finds nothing with its SELECT iff meanwhile some step took the name away and no later one gave it to a row |
| TagResolution.SelectAlwaysFinds | internal/adapter/postgres/tag_repo.go:80-87 | while nobody takes the name away the SELECT never comes back empty |
| TagResolution.DropBetweenStatements | internal/adapter/postgres/tag_repo.go:69-87 | from any state, deleting the row a caller met leaves its SELECT empty |
| RateLimit.TokenBucket.Allow | internal/adapter/http/middleware/ratelimit.go:33-50 | refill, cap, decide, spend |
| RateLimit.TokensAreLeastAllowance | internal/adapter/http/middleware/ratelimit.go:24-50 | the counter equals the least burst + rate * length - admitted over all windows of the history |
| RateLimit.AdmittedIffNoWindowExceeds | internal/adapter/http/middleware/ratelimit.go:24-50 | a request is let through iff no window ending at it would exceed burst + rate * length |
| RateLimit.WindowBound | internal/adapter/http/middleware/ratelimit.go:33-50 | over any stretch of a monotone clock at most burst + rate * length requests get through |
| RateLimit.EachClientAlone | internal/adapter/http/middleware/ratelimit.go:71-81 | a client's answer depends on its own history alone, by the same criterion |
| RateLimit.RateLimiterStore.GetBucket | internal/adapter/http/middleware/ratelimit.go:71-81 | the client's bucket, created full if missing; no other bucket changes |
| RateLimit.RateLimiterStore.Request | internal/adapter/http/middleware/ratelimit.go:116-129 | decides on, and updates, the client's bucket only |
| RateLimit.RateLimiterStore.Cleanup | internal/adapter/http/middleware/ratelimit.go:83-98 | removes exactly the buckets idle for more than ten minutes |
| Eviction.WhenEvictionIsUnobservable | internal/adapter/http/middleware/ratelimit.go:71-98 | evicting changes no client's answers, for any traffic, iff burst < 1 or rate * 600 >= burst |
| Idempotency.IdempotencyStore.Get | internal/adapter/postgres/idempotency_store.go:27-50 | the response of an unexpired row, or none |
| Idempotency.IdempotencyStore.Set | internal/adapter/postgres/idempotency_store.go:55-65 | first writer wins, against expired rows too |
| Idempotency.IdempotencyStore.Cleanup | internal/adapter/postgres/idempotency_store.go:71-78 | keeps exactly the rows Get can still find |
| Idempotency.ServeCaptured | internal/adapter/http/middleware/idempotency.go:91-105 | the client gets what it would without the wrapper; the wrapper has the last status and all bytes |
| Idempotency.CapturedIsSent | internal/adapter/http/middleware/idempotency.go:71-105 | captured equals sent iff a header was written and the last one has the code that went out; a handler without a header sends 200 and is captured as 0, so never cached |
| Idempotency.BodyBeforeHeader | internal/adapter/http/middleware/idempotency.go:91-105 | a body before the header sends 200 and captures the later code |
| Idempotency.RepliesAreCachedAsSent | internal/adapter/http/handler/response.go:13-38 | what writeJSON or writeError writes is cached only if captured equals sent; after the fallback the first status is sent and 500 captured |
| Idempotency.Serve | internal/adapter/http/middleware/idempotency.go:45-86 | when the handler runs, what the client gets and what is stored, in all cases of missing key, failing store, hit and miss: exactly a response captured with status 200 to 299, for a day, if the key has no row |
| IdempotencyRuns.ReplaysAreGenuine | internal/adapter/http/middleware/idempotency.go:54-84 | in every interleaving a replay has a status from 200 to 299 and is what was captured of the request, same tenant and key, whose Set inserted the row; it is what that client was sent iff its last header had the code that went out |
| IdempotencyRuns.StoredAreSuccesses | internal/adapter/http/middleware/idempotency.go:78-84 | every stored response has a status from 200 to 299 and was captured of a request with that tenant and key |
| IdempotencyRuns.WholeRuns | internal/adapter/http/middleware/idempotency.go:54-84 | a miss captured with status 200 to 299 stores exactly that response for a day, if the key has no row |
| IdempotencyRuns.OtherStatusesLeaveNothing | internal/adapter/http/middleware/idempotency.go:78-84 | a miss captured with any other status leaves the store as it was, and the next request with the key, if its read works, runs the handler |
| IdempotencyRuns.RouteReplaysAreExact | internal/adapter/server/router.go:113 | behind the middleware, where handlers answer through writeJSON and writeError, every replay is what the first client was sent |
| IdempotencyRuns.RowHolds | internal/adapter/postgres/idempotency_store.go:27-78 | until it expires a row does not change, its key's replays are its response, and with working reads of this key no further request runs the handler |
| IdempotencyRuns.HandlerCanStartIff | internal/adapter/http/middleware/idempotency.go:54-76 | in any state the handler can be started for a key at once, with working reads, iff there is no unexpired row |
| IdempotencyRuns.OwnResponseIsFoundIff | internal/adapter/postgres/idempotency_store.go:55-65 | after a Set the request's own response is found iff no row had the key or an unexpired one held the same response; nothing is found iff an expired row is in the way |
| IdempotencyRuns.OwnResponseIsReplayedIff | internal/adapter/http/middleware/idempotency.go:54-84 | over whole runs without another Set the own response is replayed iff that condition holds, and then by every replay in the row's lifetime |
| IdempotencyRuns.ExpiredRowBlocks | internal/adapter/postgres/idempotency_store.go:55-65 | from an empty store: a second request after a day without cleanup completes and its response is dropped |
| IdempotencyRuns.CleanupUnblocks | internal/adapter/postgres/idempotency_store.go:55-78 | with a cleanup just before the Set only an unexpired row still takes precedence |
| IdempotencyRuns.OverlapRunsTwice | internal/adapter/http/middleware/idempotency.go:54-76 | from any state without an unexpired row, any two new requests that both read before either writes both run the handler |
| KeyCache.AuthVerifier.Verify | internal/adapter/postgres/auth_verifier.go:56-112 | an unexpired entry answers; otherwise the key's row decides: accepted iff its tenant is not suspended, it has not expired and its scopes parse, with the row's identity, and which error in each other case; exactly the accepted are cached |
| KeyCacheRuns.HitsAreFresh | internal/adapter/postgres/auth_verifier.go:222-241 | an identity answered from the cache was put less than ttl earlier, from a lookup of the same key, and is that of the key's row at that lookup, of a tenant then not suspended |
| KeyCacheRuns.LookupsAreGenuine | internal/adapter/postgres/auth_verifier.go:66-106 | at every accepted lookup the directory had a row under the key's hash, of a tenant not suspended, not expired, and the identity is the row's |
| KeyCacheRuns.LookAcceptsIff | internal/adapter/postgres/auth_verifier.go:66-106 | a lookup whose query succeeds is accepted iff there is such a row with scopes that parse; a rejected one leaves no trace |
| KeyCacheRuns.SuspendedIsRejected | internal/adapter/postgres/auth_verifier.go:84-86 | while a tenant stays suspended no lookup of its keys is accepted, and every answer for it from the cache comes from a lookup made before |
| KeyCacheRuns.SuspensionTakesEffect | internal/adapter/postgres/auth_verifier.go:222-241 | and every such answer comes within ttl of the suspension, if no lookup was then between its check and its cache write |
| KeyCacheRuns.ClearIsCleanIff | internal/adapter/postgres/auth_verifier.go:182-186 | after invalidation all answers come from later lookups iff no lookup is under way |

## Left out

- HTTP routing, handlers, DTOs, scopes, content-type classification, filename sanitizing, logging, metrics, configuration: single-branch facts. `MediaCommands.Create` takes the classification as a parameter.
- Storage backends: a set of paths where Save adds a fresh path or fails without effect, and Delete is idempotent or fails.
- Base64, JSON and UUID parsing in cursors: a codec that round-trips and never encodes to the empty string.
- NFC: a function that is idempotent and stable under the pipeline's whitespace edits. SHA-256: an injective function.
- float64 rounding in the limiter and Go's clock: reals and times as parameters. Wrap-around of counters: the numbers involved stay small.
- Collation: any strict total order on names; UUIDs are compared as numbers.
- The race in which a request holds a bucket that cleanup evicts: lookup and `allow` are one step.
- 1xx informational responses in the writer model, and responses whose body the client never reads.
- `BeginTx`, `SET LOCAL` and `Commit` failures: a failing transaction is a rolled-back one. A context without tenant is not modelled.
- A nullable `error` column scanned into a string in `Dequeue`: read as the intended empty string.
- Reclaiming jobs whose worker died: the code has no such step, so no claim that every job ends.
- `Stats`, the ticker loops, migrations as steps, and `EnsureLegacyTenant`, `CreateAPIKey`, `CreateTenant`: easy members.
- Tag and media services' one-line calls (`Delete`, `GetByID`, `DetachTag`): nothing to add to the repositories' contracts.
- TenantIsolation.EachTenantAlone: transactions are taken one after the other. PostgreSQL's default READ COMMITTED lets one commit between two statements of another; that is modelled for `CreateOrGet` (`TagResolution`), listing media (`Walks`, `ShownTags`) and `AttachTags` (`AttachStatements`), not for `MediaRepo.Create`, `GetByID` and `DetachTag`.
- TenantIsolation.ExecSimulates: one operation as one undisturbed transaction, likewise.
- CatalogRepo.MediaRepo.List: the composition of its two statements on unchanged tables; each is specified alone, and `MediaService.ReplyFromTwoReads` puts two different states together.
- MediaCommands.AttachTagsTo: the call's three transactions are taken without other requests in between; what each transaction does among others is stated by `TenantIsolation.EachTenantAlone`.
- MediaCommands.Create: taken without other requests in between; the interleaved statement is `MediaSaga.ReachableStates`.
- MediaCommands.Delete: taken without other requests in between, likewise.
- TagResolution.CallersAgree: assumes that nobody takes away the name in question or renames another tag to it; when that makes a call fail is `TagResolution.SelectComesBackEmptyIff`.
