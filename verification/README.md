# MaxwellGoSpine: cached users and GraphQL completion

A Dafny model of two parts of MaxwellGoSpine and proofs about it. The first is
the user service: a soft-delete store (in memory or in SQL), the service that
validates and normalises, and the decorator that caches users and lists in a
two-tier cache. The second is the generated GraphQL executor: how it completes
values, counts invalid fields, fills lists from goroutines and lets a null rise.
`dafny verify dfyconfig.toml` checks all of it.

## How it is laid out

- `Core`, `Text`, `Keys`, `Paging`, `Table`: ids, users and results; trimming
  and email normalisation; cache keys as text; 64-bit page arithmetic; the table
  of rows with tombstones and what a listing of it may be. Functions the classes
  are proved against have lemmas named `...Means` that say, without them, what
  each result is and when each error arises.
- `MemoryRepo`, `Service`, `Cache`, `CachedService`: the classes, with the
  fields and the in-place updates of the program. `CachedUserService.Run` is the
  whole-script simulation of the plain service, one call at a time.
- `Protocol`: the same calls cut into atomic steps (repository call, version
  load, version bump, local and Redis get, set and delete), any number of them
  interleaved with evictions, clock ticks and failing Redis commands.
  `ListFreshness`, `UserCoherence` and `DataInvariant` are three invariants over
  every interleaving; `Replies` accounts for every answer by a step of the call
  that gave it, `ReadYourWrites` follows a write into later listings, and
  `CacheContents` says what may be in the cache and what is put there.
  `StaleGet` shows that a Delete over an unfinished Get, which the discipline of
  `UserCoherence` excludes, can always end with a stale entry.
- `Sql`, `SqlRepo`, `Agreement`: the SQL repository, its transactional twin,
  `WithTx`, and when the two repositories give the service the same results.
- `GraphqlSpec` is a recursive reference after sections 6.4.3 and 6.4.4 of the
  GraphQL specification (October 2021); `GraphqlTheory`, `GraphqlRise` and
  `GraphqlContainment` prove what null propagation promises of it: typed trees,
  a null at the nearest nullable position and no further. `GraphqlFaults` says
  which positions have an error and what the others show, from the resolvers
  alone, and `GraphqlSchema` holds the field table against the written schema.
  `GraphqlExec` is the generated code with its panics and recovers, proved equal
  to the reference; `GraphqlInterleave` runs all its fields and elements at
  once, in any interleaving. `GraphqlCollapse` and `GraphqlStandard` say exactly
  when gqlgen's reading and the standard one give different responses.
  `ListSchedule` interleaves the goroutines of one list function step by step,
  WaitGroup and recover included, and `GraphqlSchedule` puts the executor's
  elements into it.

## Premises

- Fresh ids, clock readings and validity of an address (an arbitrary predicate)
  are inputs. Repository calls are atomic, as the lock makes them.
- A local cache write installs the value or leaves the key absent; either tier
  may lose any key at any moment, which covers expiry and cost eviction. Decoding
  inverts encoding, so the cache is modelled on decoded payloads. A decoder that
  accepts a payload of the other kind never sees one, because user and list keys
  are disjoint.
- The version counter wraps at 2^64. List results assume fewer bumps than that.
- A process may start on any table and with any cached users, but with no cached
  lists. What is said of user entries assumes that those found at the start agree
  with the table; what is said of normalised rows, that the first rows are.
- `sort.Slice` over a map walk leaves ties in any order, so a listing is a page of
  some descending order, never a particular one.
- A SQL statement either takes effect or reports a storage error, `email` is
  unique over all rows including deleted ones (migrations/0001_init.sql:5), and
  PostgreSQL refuses further statements after a failed one in a transaction.
- GraphQL selections are validated and collected: known fields under distinct
  response keys. What each resolver does is an arbitrary function of the response
  position: value, typed or untyped nil, error, panic, or bad arguments.

## Where the code parts from its documentation or its standard

- The page handler bounds the page from below only. A very large page makes the
  in-memory offset wrap below zero and the slice expression panic
  (`Paging.HugePagePanics`, exact condition `Paging.MemoryPageExactIff`).
- A Get that straddles a Delete of the same id can leave the deleted user in the
  cache until it expires (`StaleGet.DeleteOverGetGoesStale`).
- The two repositories differ on emails, which the in-memory one does not keep
  unique, and on offsets that wrap below zero, where one panics and the other
  reports an error. Nothing else separates them (`Agreement.StepsAgreeIff`).
- `__schema` is `__Schema!` in the specification and nullable in `_Query`; a nil
  slice at `[T!]!` is an empty list, while the check for nil sees a typed value
  (`GraphqlStandard.AgreesWithTheStandardIff`).
- A list function that recovers from a panicking element returns an empty array,
  not null (`ListSchedule.SchedulesAgreeIff`). It cannot arise for a validated
  selection: no panic escapes from marshalling an element of one
  (`GraphqlExec.ValidatedNeverEscapes`, `GraphqlSchedule.ElementsPanicIff`).

## Model

| member | source | states |
|---|---|---|
| Keys.ReadPrintInt | internal/core/cached_usersvc.go:29-32 | printing a signed number in decimal loses nothing: reading it back gives the number, for every integer |
| Keys.PrintUuidInjective | internal/core/cached_usersvc.go:29 | two ids with the same hexadecimal text are the same id |
| Keys.UserKeyInjective | internal/core/cached_usersvc.go:29 | two user keys are equal exactly when the ids are |
| Keys.ListKeyInjective | internal/core/cached_usersvc.go:30-32 | two list keys are equal exactly when version, page and size all are, for every version and every signed page and size |
| Keys.KeysDisjoint | internal/core/cached_usersvc.go:29-32 | no user key is a list key |
| Protocol.KeyTextInjective | internal/core/cached_usersvc.go:29-32 | the abstract keys of the interleaving model stand for distinct key texts, so using them in place of texts loses nothing |
| Text.TrimSpaceShape | internal/core/usersvc.go:34 | trimming gives a contiguous part of the text with no space at either end, and all it removes is space |
| Text.TrimmedIsFixed | internal/core/usersvc.go:45-53 | text without outer space is left alone by trimming |
| Text.NormalizedIsFixedPoint | internal/core/usersvc.go:33-42 | a normalised email is non-empty, trimmed, lower case and normalises to itself; which email it is, NormalizeEmailMeans says |
| Text.TrimSpaceMeans | internal/core/usersvc.go:34 | trimming leaves the text between the first and the last character that is no blank, and nothing exactly when all is blank |
| Text.NormalizeEmailMeans | internal/core/usersvc.go:33-42 | blank input is an empty-email error; otherwise the result is the part between the outer blanks with every capital replaced by the small letter in its place of the alphabet and every other character kept, unless the address parser rejects it |
| Paging.MemoryPageExactIff | internal/core/user_repo_memory.go:75-82 | with wrapping 64-bit arithmetic List returns the mathematical page if and only if the wrapped offset is not below the total or offset plus size fits in an int: a check on the arguments and the total alone |
| Paging.PastTheEnd | internal/core/user_repo_memory.go:78-79 | when a too large offset wraps below the total, List does not return the empty page it should |
| Paging.MemoryPagePanicsIff | internal/core/user_repo_memory.go:75-82 | List panics if and only if the wrapped offset is negative, or is below the total while offset plus size does not fit; otherwise it returns the page at the wrapped offset |
| Paging.HandlerPageInBounds | internal/core/user_repo_memory.go:75-82 | for handler arguments with offset and total plus size below 2^63 neither sum wraps and the page is exact, so any slice is in bounds |
| Paging.HugePagePanics | internal/core/user_repo_memory.go:78-82 | page 9223372036854775807, which the handler lets through, makes the slice expression panic whatever is stored |
| Paging.WrapIsCongruent | internal/core/user_repo_memory.go:76-79 | wrapping changes a number by a multiple of 2^64 only |
| Paging.MemoryDefaults | internal/core/user_repo_memory.go:76-79 | without a usable size a page has fifty rows, without a usable number it is the first, and the first page is the first rows of the listing |
| Paging.ParsePagination | internal/http/handlers/users.go:147-158 | the page is at least 1, the size is 1 to 100; valid arguments pass through, others become 1 and 20 |
| Paging.PagesPartition | internal/core/user_repo_memory.go:75-82 | enough consecutive exact pages concatenate to the whole listing, and every page past the last is empty |
| Table.PermutationKeepsRows | internal/core/user_repo_memory.go:66-74 | reordering a listing keeps exactly the live rows, each once |
| Table.OrderingLength | internal/core/user_repo_memory.go:75 | every ordering of the live rows has exactly as many entries as there are live ids |
| Table.OrderingExists | internal/core/user_repo_memory.go:66-74 | every table can be listed: some descending order of its live rows exists |
| Table.ListReportsLiveRows | internal/core/user_repo_memory.go:65-83 | whatever order ties fall in, a page holds only live rows as stored and the total is the live count |
| Table.NewestFirst | internal/core/user_repo_memory.go:74 | rows come newest first, and no live row missing from the first page is newer than one on it |
| Table.OrderingUnique | internal/core/user_repo_memory.go:74 | with pairwise distinct creation times there is one descending order |
| Table.SeparatePagesPartition | internal/core/user_repo_memory.go:65-83 | separate List calls for pages 1 to n, each free to sort anew, together return every live user exactly once in descending creation time, later pages are empty and every total is the live count |
| Table.TiesMayRepeat | internal/core/user_repo_memory.go:74 | with a tie in creation time two pages may show the same user twice, so distinct times are needed |
| MemoryRepo.InsertByCreation | internal/core/user_repo_memory.go:74 | inserting one row keeps the list descending and adds exactly that row |
| MemoryRepo.SortByCreation | internal/core/user_repo_memory.go:74 | the sorted list is a descending permutation of its input |
| MemoryRepo.TakePage | internal/core/user_repo_memory.go:75-82 | the page cut from the sorted list is the wrapping-arithmetic page, panics included |
| MemoryRepo.InMemoryUserRepo.RowsWellKeyed | internal/core/user_repo_memory.go:13-20 | every object is stored under its own id |
| MemoryRepo.InMemoryUserRepo.Create | internal/core/user_repo_memory.go:22-31 | a fresh id gains a private copy of the row, a taken id (deleted or not) is an error that changes nothing; ownership is kept |
| MemoryRepo.InMemoryUserRepo.Get | internal/core/user_repo_memory.go:33-41 | returns a fresh copy of a live row, ErrNotFound for a missing or deleted id, and changes nothing |
| MemoryRepo.InMemoryUserRepo.Update | internal/core/user_repo_memory.go:43-52 | replaces the whole row of a live id with a private copy, else ErrNotFound and nothing changes |
| MemoryRepo.InMemoryUserRepo.Delete | internal/core/user_repo_memory.go:54-63 | stamps a live row as deleted in place, else ErrNotFound and nothing changes |
| MemoryRepo.InMemoryUserRepo.CopyLive | internal/core/user_repo_memory.go:67-73 | the loop over the map collects fresh copies of exactly the live rows, each once, in any order |
| MemoryRepo.InMemoryUserRepo.List | internal/core/user_repo_memory.go:65-83 | fresh copies forming a page of some descending order of the live rows; the table is untouched |
| MemoryRepo.InMemoryUserRepo.CallerWrite | internal/core/user_repo_memory.go:22-52 | any write a caller makes to an object it passed in or received leaves the stored table unchanged |
| Cache.Layered.Get | internal/cache/cache.go:36-50 | answer and both tiers are exactly those of the two-tier lookup with local backfill, given what the environment drops and refuses; every hit is a value once Set under that key, and while no Redis write has failed it is the last Set since the last Delete |
| Cache.Layered.Set | internal/cache/cache.go:52-57 | both tiers are exactly those with the new value, given what the environment drops and refuses; the last-set map records it and a refusal is remembered |
| Cache.Layered.Delete | internal/cache/cache.go:59-64 | both tiers are exactly those without the key, given what the environment drops and refuses; a refusal is remembered |
| Cache.SetThenGet | internal/cache/cache.go:36-57 | what was set is found, locally while it is kept there and else in Redis, from where it is put back locally |
| Cache.DeleteThenGet | internal/cache/cache.go:36-64 | what was deleted is missed, unless Redis refused the command and still holds it |
| Cache.OtherKeysStay | internal/cache/cache.go:36-64 | no operation touches another key |
| Service.UserService.Create | internal/core/usersvc.go:44-58 | result and new table are those of the create call: validation order, normalised fields, both timestamps from one clock reading; CreateCallMeans spells them out |
| Service.UserService.Update | internal/core/usersvc.go:64-87 | read, edit and write back: result and new table are those of the update call, errors leave the table alone; UpdateCallMeans spells them out |
| Service.UserService.Edit | internal/core/usersvc.go:69-82 | edits the fetched copy in place; when validation gives up, the copy keeps exactly the new name if only the email was rejected; ChangedUserMeans spells out the accepted edit |
| Service.UserService.Delete | internal/core/usersvc.go:89 | result and new table are those of the soft delete; DeleteCallMeans spells them out |
| Service.CreateChangesOneRow | internal/core/usersvc.go:44-58 | a successful create adds one live row under the new id and touches no other; a failed one changes nothing |
| Service.UpdateChangesOneRow | internal/core/usersvc.go:64-87 | a successful update replaces the row of a live id and touches no other; a failed one changes nothing |
| Service.DeleteChangesOneRow | internal/core/usersvc.go:89 | a successful delete turns one live row into a tombstone and touches no other; a failed one changes nothing |
| Service.ChangedUserMeans | internal/core/usersvc.go:69-82 | an edit fails exactly on a blank name, else on an email error; otherwise the given fields are trimmed or normalised, the others kept, and the update time is the clock |
| Service.CreateCallMeans | internal/core/usersvc.go:44-58 | each error exactly when it arises and in this order: blank name, email error, taken id; otherwise one live row with that id, the trimmed name, the normalised email and the clock twice |
| Service.UpdateCallMeans | internal/core/usersvc.go:64-87 | each error exactly when it arises and in this order: no live row, blank name, email error; otherwise the stored row with the given fields trimmed or normalised, the others kept, creation time kept and update time from the clock |
| Service.DeleteCallMeans | internal/core/usersvc.go:89 | not found exactly when no live row has the id; otherwise that row gets the clock as deletion time and keeps every other field |
| Service.GetRowMeans | internal/core/usersvc.go:60-62 | a row is read exactly when it is stored and not deleted; the only other answer is not found |
| CachedService.CachedUserService.Bump | internal/core/cached_usersvc.go:40 | the 64-bit version follows the number of bumps, wrapping |
| CachedService.CachedUserService.Invalidate | internal/core/cached_usersvc.go:62-63 | drops the user entry and bumps the version, leaving the table alone |
| CachedService.CachedUserService.Create | internal/core/cached_usersvc.go:35-43 | answers and table are the plain service's; on success one bump and the user entry set; coherence is kept |
| CachedService.CachedUserService.Get | internal/core/cached_usersvc.go:45-55 | with trusted entries the answer is the stored row or the plain error, hit or miss; a miss that succeeds sets the entry |
| CachedService.CachedUserService.Update | internal/core/cached_usersvc.go:57-66 | answers and table are the plain service's; on success the entry is dropped, the version bumped, the new user set; coherence is kept |
| CachedService.CachedUserService.Delete | internal/core/cached_usersvc.go:68-75 | answers and table are the plain service's; on success the entry is dropped and the version bumped; coherence is kept |
| CachedService.CachedUserService.List | internal/core/cached_usersvc.go:77-98 | with an unwrapped counter the answer is one the plain List could give now, hit or miss, even if Redis writes were lost; a miss sets the entry under the current version |
| CachedService.CachedUserService.Run | internal/core/cached_usersvc.go:35-98 | for every script of calls, with evictions between any two steps, there is a run of the plain service from the same table with the same answers; a lost Redis write can spoil only answers to Get |
| CachedService.BumpThenSetUserKeepsLists | internal/core/cached_usersvc.go:40-41 | after any change to the table, bumping the version makes every list entry irrelevant, so list coherence holds again |
| CachedService.ReplaceUserKeepsUsers | internal/core/cached_usersvc.go:62-64 | dropping and resetting the entry of a rewritten row keeps all user entries equal to their rows |
| CachedService.DropUserKeepsUsers | internal/core/cached_usersvc.go:72 | dropping the entry of a changed row keeps the other entries equal to their rows |
| ListFreshness.StepKeeps | internal/core/cached_usersvc.go:30-98 | every step of every interleaving, with evictions and failing Redis commands, keeps the invariant that a list entry was read no earlier than its version was reached and that unannounced writes belong to calls still about to bump |
| ListFreshness.ListsAreFresh | internal/core/cached_usersvc.go:30-97 | in every interleaving, from any table and any cached users, a List answer is a page of a table that already contained every write returned before the List began |
| ListFreshness.QuiescentListsAreCurrent | internal/core/cached_usersvc.go:36-97 | whenever no write is between its base call and its bump, every list entry under the current version is a page the current table allows |
| ReadYourWrites.ReturnedWritesAreListed | internal/core/cached_usersvc.go:30-97 | in every interleaving, a List that begins after a write has returned answers with a page of a table from that commit on |
| ReadYourWrites.DeletedStaysDeleted | internal/core/cached_usersvc.go:68-97 | a List that begins after a Delete has returned never shows the deleted user, on any page and from either tier |
| Replies.AnswersAreAccountedFor | internal/core/cached_usersvc.go:35-98 | in every interleaving each answer is accounted for by the call's own steps between its beginning and its return: not found only if its id was not live at one of them, a storage error only if one of its repository calls failed, a validation error only for such arguments, a duplicate only for an id it drew, a crash only where the page arithmetic panics; created, updated and deleted only after the commit of exactly that row; no request gets another's kind of answer |
| CacheContents.GetAnswersAreRows | internal/core/cached_usersvc.go:45-55 | in every interleaving, disciplined or not, a user that Get returns was, under the id asked for, a live row of some table committed when it was read, unless it was cached before the start |
| CacheContents.UsersAreCached | internal/core/cached_usersvc.go:40-64 | once a Create, Update or Get has its user, running on undisturbed it returns that user and leaves exactly it in both tiers |
| CacheContents.DeletedAreDropped | internal/core/cached_usersvc.go:68-75 | once a Delete has committed, running on undisturbed it leaves the id in neither tier |
| CacheContents.PagesAreCached | internal/core/cached_usersvc.go:88-97 | a page that was read is returned and stored under its version, page and size in both tiers, and nothing else changes there |
| CacheContents.HitsAnswer | internal/cache/cache.go:36-50 | an entry in the local tier is the answer; one in Redis is copied to the local tier and is the answer |
| UserCoherence.IdleIdsAreCoherent | internal/core/cached_usersvc.go:35-75 | if a write overlaps no other call on its id (Gets of one id overlap freely) and the writers' Redis commands succeed, then in every interleaving an id no write is working on is cached, in either tier, only as the live row itself |
| UserCoherence.RepliesAreCurrent | internal/core/cached_usersvc.go:45-66 | under the same discipline the user any Create, Get or Update returns is the live row at the moment it returns; the other answers are accounted for in Replies |
| UserCoherence.WriteThenSetSettles | internal/core/cached_usersvc.go:62-64 | whatever the tiers held, running setUser after the write leaves the entry equal to the row |
| UserCoherence.DeleteSettles | internal/core/cached_usersvc.go:72-73 | whatever the tiers held, running delUser leaves no entry |
| StaleGet.DeleteOverGetGoesStale | internal/core/cached_usersvc.go:45-55 | the discipline cannot be dropped: in every state it can lead to, a Delete begun while a Get of the same live id has not finished storing has a continuation, without failures or new calls, that ends with no call on the id in flight, a tombstone in the table and the deleted user in the cache |
| DataInvariant.TombstonesArePermanent | internal/core/user_repo_memory.go:22-63 | in every interleaving, including a Delete between the read and the write of an Update, a deleted row is never changed, revived or recreated in any later table |
| DataInvariant.CountsAreConserved | internal/core/user_repo_memory.go:22-83 | in every table of every run the number of live users is that of the first table plus successful creates minus successful deletes |
| DataInvariant.RowsAreNormalised | internal/core/usersvc.go:33-87 | from a normalised first table, every stored row has a non-empty trimmed name, an email that is a fixed point of normalisation, an unchanging creation time and created <= updated <= now, when the clock never goes back |
| DataInvariant.DeletedIsNeverListed | internal/core/cached_usersvc.go:77-97 | a List begun after a delete returned never shows the deleted id; its total is the conserved count of one table no older than that delete |
| Sql.SelectReportsLiveRows | internal/storage/postgres/user_repo.go:160-190 | whatever order ties fall in, a SQL listing has at most a page of distinct live rows as stored, newest first, and its total is the live count |
| Sql.SqlDefaults | internal/storage/postgres/user_repo.go:160-168 | a size outside 1 to 100 means twenty, a page below 1 the first; the first page is the first rows of the listing and the total is the live count |
| Sql.InsertMeans | internal/storage/postgres/user_repo.go:111-118 | an insert fails exactly when some row, deleted or not, has the id or the email; otherwise it adds one live row with the five given fields |
| Sql.UpdateColumnsMeans | internal/storage/postgres/user_repo.go:133-144 | not found exactly when no live row has the id, an error exactly when another row has the email; otherwise name, email and update time are written and nothing else |
| Sql.DirectMeans | internal/storage/postgres/user_repo.go:111-190 | each call's answer beside its statement: an error or a read leaves the table as it was |
| Sql.DirectRunKeepsUnique | migrations/0001_init.sql:5 | over any run of calls emails stay pairwise distinct, deleted rows counted |
| Sql.WithTxKeepsUnique | internal/core/usersvc.go:95-118 | so they do over any transaction, however it ends |
| Sql.InTxMeans | internal/storage/postgres/user_repo.go:35-109 | outside an open sound transaction every call has a storage error and no effect; inside, it answers as the direct call does on the private view, and a storage error, and nothing else, aborts |
| Sql.ErrorPoisons | internal/storage/postgres/user_repo.go:35-109 | after a call with a storage error, whatever is still called, Commit fails |
| Sql.WithTxIsAtomic | internal/core/usersvc.go:95-118 | for every body of repository calls and every end: nil exactly when the body returned nil, no statement aborted the transaction and Commit succeeded; then the table is the body's final view, otherwise it is unchanged |
| Sql.WithTxEndsTheTransaction | internal/core/usersvc.go:104-117 | every transaction begun ends closed: nil means the last event is a Commit that worked, anything else that a Rollback was attempted, which took effect exactly when the transaction was still open |
| Sql.EarlyCommitIsTheOnlyWay | internal/core/usersvc.go:110-117 | the table differs before WithTx finishes if and only if the body itself committed a change |
| Sql.ErrorMeansUntouchedIff | internal/core/usersvc.go:110-117 | when WithTx does not return nil the table is unchanged if and only if the body did not itself commit a change |
| Sql.TwinIsFaithful | internal/storage/postgres/user_repo.go:35-109 | any script without storage errors is possible through the transactional twin exactly when it is directly, each listing in an order the table at that point allows; the replies are the same and so is the table once committed |
| Sql.AbortedCommitsNothing | internal/storage/postgres/user_repo.go:35-109 | a closed or aborted transaction has no further effect and Commit is refused |
| SqlRepo.SelectRows | internal/storage/postgres/user_repo.go:168-189 | the cursor loop and the count give a listing the table allows, or the error for a negative offset |
| SqlRepo.UserRepo.Create | internal/storage/postgres/user_repo.go:111-118 | inserts the row or reports the constraint that failed, changing nothing; InsertMeans says exactly when |
| SqlRepo.UserRepo.Update | internal/storage/postgres/user_repo.go:133-144 | writes three columns of a live row, ErrNotFound when no row was affected |
| SqlRepo.UserRepo.Delete | internal/storage/postgres/user_repo.go:146-158 | stamps a live row, ErrNotFound when no row was affected |
| SqlRepo.UserRepo.List | internal/storage/postgres/user_repo.go:160-190 | clamped arguments, and a listing the committed table allows |
| SqlRepo.TxUserRepo.Create | internal/storage/postgres/user_repo.go:35-41 | the same insert on the private view; an error aborts the transaction; InsertMeans and InTxMeans say exactly when |
| SqlRepo.TxUserRepo.Update | internal/storage/postgres/user_repo.go:54-65 | the same three-column update on the private view |
| SqlRepo.TxUserRepo.List | internal/storage/postgres/user_repo.go:79-109 | a listing the private view allows; a failed query aborts the transaction |
| SqlRepo.Tx.Commit | internal/storage/postgres/user_repo.go:29 | publishes the private view when open and sound, else is refused |
| SqlRepo.WithTx | internal/core/usersvc.go:95-118 | the committed flag and the deferred rollback give exactly the result, table and event log of the transaction specification, begin errors included |
| Agreement.UpdatesAgreeIff | internal/core/user_repo_memory.go:43-52 | whole-row update and three-column update of a live row agree if and only if the row carries the stored creation time and no deletion stamp |
| Agreement.PagesAgreeIff | internal/storage/postgres/user_repo.go:160-190 | for handler arguments both repositories cut the same page if and only if the offset does not wrap below zero; where it does, one panics and the other reports a storage error |
| Agreement.ListsAgreeIff | internal/storage/postgres/user_repo.go:160-190 | for handler arguments both repositories allow exactly the same List answers if and only if the offset does not wrap below zero |
| Agreement.HugePageTellsThemApart | internal/http/handlers/users.go:147-158 | page 9223372036854775807 on an empty table: the in-memory service panics, the SQL one answers with an error |
| Agreement.DeletedEmailTellsThemApart | internal/storage/postgres/user_repo.go:111-118 | create a user with the email of a deleted one: the in-memory service stores it, the SQL one answers with an error |
| Agreement.StepsAgreeIff | internal/core/usersvc.go:44-93 | on any reachable table, one service call is allowed the same results over both repositories if and only if it stores no email some other row, deleted rows included, already has and lists no page whose offset wraps below zero |
| Agreement.ClashesDiffer | internal/storage/postgres/user_repo.go:111-144 | on a clash the in-memory service answers with a user and leaves two rows with one email, the SQL one answers with a storage error and an unchanged table |
| Agreement.LostOffsetsDiffer | internal/storage/postgres/user_repo.go:160-190 | where the offset wraps below zero, the in-memory service panics on every table and the SQL one answers with a storage error |
| Agreement.RunsAgree | internal/core/usersvc.go:44-93 | hence whole runs of such calls are runs of one repository exactly when they are runs of the other |
| GraphqlTheory.ResponseIsSound | graph/generated/generated.go:3208-3741 | the data has the declared type and selected keys in order with no null at a non-null position, null data comes with an error, and no position has two errors |
| GraphqlTheory.SelectionIsSound | graph/generated/generated.go:3688-3741 | an object that collapses to null carries an error at or below it; its errors all lie in its own subtree |
| GraphqlFaults.ErrorsAreTheFaults | graph/generated/generated.go:3208-3419 | a position has an error if and only if its field's resolver fails, panics, gets bad arguments, returns a value not of the field's Go type or a nil its type does not allow, and every object above it was returned: said of the resolvers alone |
| GraphqlFaults.ErrorFreeIff | graph/generated/generated.go:3208-3258 | a response has no error, and then data, if and only if no resolver that is reached is at fault |
| GraphqlFaults.NilIsNull | graph/generated/generated.go:1384-1410 | a nullable field whose resolver returns nil is null without an error, be it a nil pointer, a nil slice or an untyped nil |
| GraphqlFaults.DataShowsTheResolvers | graph/generated/generated.go:3208-3741 | whatever is not null in the data shows what its resolver returned: leaf for leaf, element for element, key for key, `__typename` the object's own name |
| GraphqlFaults.TypenameTells | graph/generated/generated.go:3362-3370 | `__typename` is never null or an error and tells the nine object types apart |
| GraphqlSchema.TableIsTheSchema | graph/schema.graphqls:4-22 | the reference's table has exactly the fields of the written schema and of introspection, with the lists and exclamation marks written there |
| GraphqlRise.EveryErrorLeavesANull | graph/generated/generated.go:3208-3419 | every reported error has left a null in the data at its nearest nullable position or above it |
| GraphqlRise.EveryNullHasACause | graph/generated/generated.go:3208-3419 | every null in the data was returned by the resolver at that position, or some error below has it as its nearest nullable position |
| GraphqlContainment.FailuresAreContained | graph/generated/generated.go:3208-3419 | changing anything at or below a nullable position leaves every other part of the data and every other error as they were: a null rises to the nearest nullable ancestor and no further |
| GraphqlContainment.SelectionIsLocal | graph/generated/generated.go:3362-3419 | a selection set's result depends only on outcomes at and below its position |
| GraphqlExec.CodeFollowsSchema | graph/generated/generated.go:3208-3741 | for every object and field the generated code has a case exactly when the schema has the field, uses the marshal function of its type, and counts a null exactly when the type is non-null |
| GraphqlExec.ExecutionContext.ResolveField | graph/generated/generated.go:900-929 | the deferred recover lets no panic out of a field function; the value and the errors added are the reference's |
| GraphqlExec.ExecutionContext.FieldBody | graph/generated/generated.go:910-928 | the body panics exactly when the resolver does, the type assertion fails or marshalling escapes; otherwise value and errors are the reference's, for argument errors, resolver errors, nil and values alike; GraphqlFaults says of the reference when that is an error |
| GraphqlExec.ExecutionContext.MarshalValue | graph/generated/generated.go:3752-3848 | a marshal function lets a panic out exactly when it runs an object function on an unknown field; for validated selections it completes the value as the reference does, nil branches and HasFieldError included |
| GraphqlExec.ExecutionContext.MarshalList | graph/generated/generated.go:3796-3838 | no panic leaves a list function; for validated selections the result and errors are the reference's list completion |
| GraphqlExec.ExecutionContext.HoldsNull | graph/generated/generated.go:3833-3837 | the scan finds a null exactly when there is one |
| GraphqlExec.ExecutionContext.FillCells | graph/generated/generated.go:3803-3831 | whichever element runs next, for validated selections no element recovers a panic, every cell holds its completion and all errors are reported once |
| GraphqlExec.ExecutionContext.MarshalObject | graph/generated/generated.go:3271-3358 | an object function panics exactly when its selection names an unknown field; for validated selections values array, invalid counter and collapse to null give the reference's result and errors |
| GraphqlExec.ExecutionContext.Switch | graph/generated/generated.go:3280-3340 | the loop panics exactly at an unknown field; otherwise every field is finished or set aside for dispatch, with its value, its error and its count |
| GraphqlExec.ExecutionContext.Dispatch | graph/generated/generated.go:3303-3349 | whichever order the fields set aside for concurrent dispatch finish in, values, invalid count and errors are the same |
| GraphqlExec.ExecutionContext.Run | graph/generated/generated.go:3208-3358 | for every validated operation and every mix of outcomes the executor's data and errors equal the recursive reference of sections 6.4.3 and 6.4.4; GraphqlFaults says of it which positions have errors and what the others show |
| GraphqlExec.ValidatedNeverEscapes | graph/generated/generated.go:3796-3848 | no panic escapes from marshalling a value or an element of a validated selection |
| GraphqlInterleave.EveryInterleavingIsTheReference | graph/generated/generated.go:3208-3848 | with every field and element a task of its own and their accesses to the shared errors interleaved in any way, no run is endless or stuck, and each ends with the reference's data and errors |
| GraphqlInterleave.StepKeeps | graph/generated/generated.go:3796-3848 | each step of any task keeps the value the operation will come to and the errors reported or owed: HasFieldError never sees another task's error |
| GraphqlCollapse.CollapsesIff | graph/generated/generated.go:3250-3253 | an object is raised to null exactly when some non-null field fails, is null or collapses, said of the resolvers alone |
| GraphqlStandard.AgreesWithTheStandardIff | graph/generated/generated.go:1125-1134 | gqlgen's response equals the standard one if and only if no resolver that is reached returns a nil slice in a non-null list position or a nil schema, and no `__schema` fails or collapses unless the root collapses anyway |
| GraphqlStandard.NilSliceCompares | graph/generated/generated.go:3796-3838 | a nil slice at a non-null list is an empty list without an error in gqlgen and a raised error in the standard |
| ListSchedule.EveryScheduleAgrees | graph/generated/generated.go:3796-3838 | without a panicking element every interleaving returns the sequential result, and only after every element has been written |
| ListSchedule.EveryScheduleEnds | graph/generated/generated.go:3796-3831 | panics or not, no schedule exceeds a linear bound and one that cannot continue has returned: the wait never hangs, also on the length-1 path |
| ListSchedule.PanicCanLoseTheNull | graph/generated/generated.go:3810-3820 | if an element does panic, some schedule returns an empty array where the specification demands null |
| ListSchedule.SchedulesAgreeIff | graph/generated/generated.go:3796-3838 | all schedules return the specified list if and only if no element panics |
| GraphqlSchedule.ElementsPanicIff | graph/generated/generated.go:3810-3820 | an element's goroutine panics only over an unknown field of the element's own selection, so never when the selection is validated |
| GraphqlSchedule.ListsUnderEverySchedule | graph/generated/generated.go:3796-3838 | for every world, element type, items and schedule of the goroutines, the list function of a validated selection returns the reference's completion of the list |

## Left out

- Several processes sharing one Redis, and a restart against a warm Redis: the version counter is per process and starts at 0, so the code keeps no coherence there.
- Writes made through `WithTx` while entries are cached: the decorator passes `WithTx` through without invalidating anything (internal/core/cached_usersvc.go:100-102).
- `WithTx` over the in-memory repository, which only reports that transactions are not supported.
- Expiry times, costs and admission of ristretto, and the Redis protocol: they appear only as lost keys and refused commands. A refused command never takes effect later.
- A cached entry that is a nil byte slice, which the lookup treats as a local miss: no encoder produces one.
- `encoding/json`, `net/mail`, `uuid` and the SQL engine, beyond the premises above. Unicode trimming and lower-casing.
- A Commit whose outcome is unknown to the client, and other clients of the database during a transaction. The two statements of the SQL List are taken together, with no write between them; the order in which the engine returns ties is an argument of the method.
- `BeginTx` failing is a branch of `SqlRepo.WithTx`; contexts and cancellation are not modelled.
- GraphqlExec.ExecutionContext.MarshalList: in this method elements run whole, one after another in any order; interleaved accesses to the shared errors are in GraphqlInterleave, those to the slice and the WaitGroup in ListSchedule and GraphqlSchedule.
- GraphqlExec.ExecutionContext.FillCells: as for MarshalList.
- GraphqlExec.ExecutionContext.Dispatch: fields set aside run whole, one after another in any order; GraphqlInterleave has them overlap.
- GraphqlExec.ExecutionContext.Run: as for Dispatch.
- GraphqlExec.ExecutionContext.MarshalObject: the nine generated object functions and their field functions share one body driven by a table of what each case does; the invalid counter is not a 32-bit number.
- ListSchedule.EveryScheduleAgrees: assumes that no element panics; GraphqlSchedule discharges this for the elements of validated selections.
- What a panic does to an operation with an unvalidated selection, beyond where it is recovered.
- MemoryRepo.InMemoryUserRepo.Create: the caller's object must not be one the store owns; the ownership invariant shows no caller can hold such an object. Go copies the object shallowly, so a stored copy shares the time cell behind `DeletedAt` with the object passed in; here the field is a value.
- MemoryRepo.InMemoryUserRepo.Update: as for Create.
- MemoryRepo.InMemoryUserRepo.CallerWrite: a caller that writes through the shared `DeletedAt` cell can change the time in a stored tombstone, which this model does not show; whether a row is deleted, and so every later result of the repository, does not depend on that time.
- UserCoherence.IdleIdsAreCoherent: assumes that writes overlap nothing on their id and that their Redis commands succeed; for a Delete over an unfinished Get, StaleGet shows that the first cannot be dropped.
- Text.TrimSpaceShape: spaces are the ASCII ones; Go also trims the Unicode spaces.
- Text.TrimmedIsFixed: as for TrimSpaceShape.
- Text.TrimSpaceMeans: as for TrimSpaceShape.
- Text.NormalizeEmailMeans: lower case and blanks are those of ASCII.
- Text.NormalizedIsFixedPoint: lower case and spaces are those of ASCII.
- DataInvariant.RowsAreNormalised: normalisation is the ASCII one.
- CachedService.CachedUserService.List: promises nothing once the version counter has wrapped around.
- Errors a resolver reports on its own through the GraphQL context, and error messages: an error is known by its position.
- The `@defer` path, argument decoding, `CollectFields`, complexity limits and resolver middleware other than the identity.
- HTTP handlers other than `parsePagination`, the router, HTTP middleware, configuration, start-up and shutdown. `strconv.Atoi` and its error are replaced by the number it yields.
- The GraphQL resolvers themselves: one set only panics, the other forwards to the service.
