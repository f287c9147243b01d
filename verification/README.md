# A model of arvel's database layer and the protocols that share its shape

arvel is an asynchronous Python web framework. This project models the parts of it whose promises are
about whole walks, whole runs or every interleaving, and proves those promises.

A SQL table is a sequence of rows. A query is a filter, a stable sort and a limit over it; NULL appears
only where the relation clauses care (a record maps the columns that are not NULL). Hashes and random
secrets are values that have not been used before. A call that takes several database steps is a small
state machine, and a run is any sequence of steps of any number of calls. Code that changes fields in
place is a class whose methods are proved against a function of the old state; the lemmas are about
that function.

| file | what it models |
|---|---|
| Seqs.dfy, Strings.dfy | sequences as tables, counting, joins; string order |
| Query.dfy, Keyset.dfy, Builder.dfy | the query builder: conditions, ordering, cursor pagination, chunked reads |
| Recursive.dfy, Nest.dfy | the recursive relation: one query, one batched query, nested dictionaries |
| EagerLoading.dfy, WhereHas.dfy, Pivots.dfy, PivotSync.dfy | relations: loading, EXISTS and COUNT clauses, sync and toggle |
| AfterCommit.dfy, Transact.dfy | nested transactions, the after-commit buffer, the bounded retry |
| RefreshTokens.dfy, RememberTokens.dfy | token rotation under concurrency |
| CacheLocks.dfy, CacheTags.dfy, FeatureMemo.dfy | the array lock table, tagged entries, the feature memo |
| Migrator.dfy, JsonApi.dfy, Ulid.dfy | migration batches, compound documents, ULID encoding |

## Where the code and its description part

The model follows the code. Each of these has a lemma with a concrete input, an exact condition, or both.

- A cursor that does not decode makes `cursor_paginate` fail with a lookup error
  (`Builder.OnlyForeignCursorsFail`).
- `chunk_by_id` skips rows on a column with equal keys across a page boundary, with an offset, or with a
  size of zero (`Builder.ChunkByIdComplete`, `Builder.NonUniqueColumnLosesARow`); on a unique column it is
  stable under any changes (`Builder.ChunkByIdExactlyOnce`), where offset batches are not
  (`Builder.OffsetChunksSkip`).
- The batched recursive walk gives nothing to a parent whose own row is gone (`Recursive.GoneParent`,
  `Recursive.LeftBehind`), and upwards follows the stored parent column, not the one in memory
  (`Recursive.BatchEqualsOwn`).
- A cancelled after-commit callback drops the ones after it (`AfterCommit.FlushRunsUpTo`,
  `AfterCommit.CancelledDropsTheRest`).
- Work deferred in a rolled-back transaction still runs when the dispatcher's own context is open around
  it (`AfterCommit.RollbackDropsIffNoBuffer`, `AfterCommit.ScopeRunsRolledBackWork`).
- `transact` retries after its COMMIT when deferred work fails transiently, and nested in a transaction
  it keeps the deferred work of failed attempts (`Transact.TransientFlushWritesTwice`,
  `Transact.CleanIffNoTransientFlush`, `Transact.NestedRetryKeepsDeferredWork`).
- A family revocation does not stop a rotation that has claimed its token and not yet reissued
  (`RefreshTokens.RevocationFinalIffNoneInFlight`, `RefreshTokens.WinnerOutlivesRevocation`).
- The loser of a race on a remember cookie bows out only if it read the row before the winner's rotation;
  if it read later it takes the mismatch for theft and deletes the winner's row
  (`RememberTokens.LoserSparesWinnerIffReadBefore`, `RememberTokens.LateLoserKillsTheWinner`).
- Loading alone and loading in a batch differ for NULL keys, repeated owner keys, contested far rows and
  repeated pivot pairs; EXISTS without a condition trusts dangling pivot rows; COUNT counts links
  (`EagerLoading.*`, `WhereHas.*`, `Pivots.*`).
- EXISTS and COUNT see rows that the related model's scopes, such as soft deletion, hide from every fetch
  (`WhereHas.ScopedClauseAgreesIff`).
- An array lock acquired for no time reports success and is not held (`CacheLocks.AcquiredYetNotHeld`).
- A "+" or ":" in a tag name can make scoped keys collide (`CacheTags.CollideIff`,
  `CacheTags.ScopedKeysCollide`).
- `remember` on tagged entries stores under a lifetime that is not positive, where `put` evicts
  (`CacheTags.TaggedCache.Remember`).
- A memo that answered from the everyone row goes stale when that row changes
  (`FeatureMemo.ForEveryoneAgrees`, `FeatureMemo.StaleAfterForEveryone`).
- A migration name missing from the list keeps its batch, and every earlier one, from ever being rolled
  back (`Migrator.RollbackMovesOnIffKnown`, `Migrator.StuckForGood`, `Migrator.UnknownNameBlocks`).
- A JSON:API document can include its primary resource a second time (`JsonApi.IncludedIffReached`,
  `JsonApi.CyclicIncludeRepeatsPrimary`), and can miss what an ordinary request asks for when two visits
  meet (`JsonApi.IncompleteIffSkippingLoses`, `JsonApi.ConvergingPathsLoseAResource`); every request with a
  dotted path misses something on some graph (`JsonApi.CompleteEverywhereIffUndotted`).

## Model

| member | source | states |
|---|---|---|
| Query.AndNarrows | src/arvel/database/builder.py:968-979 | a condition appended with AND narrows the whole accumulated expression, whatever ANDs and ORs precede it |
| Query.OrWidens | src/arvel/database/builder.py:968-979 | a condition appended with OR widens the whole accumulated expression; the first condition stands alone, whatever its connector |
| Query.CompareReads | src/arvel/database/builder.py:160-177 | a comparison tests the row's own value of its column |
| Query.OrderReads | src/arvel/database/builder.py:876-898 | ordering by one column is by its values, ascending or descending |
| Query.SortSorted | src/arvel/database/builder.py:876-898 | ORDER BY over mixed directions lists the selected rows in lexicographic order and keeps every row as often as it was |
| Query.SelectBounded | src/arvel/database/builder.py:574-579 | adding one AND bound to a query selects, out of the unbounded listing, exactly the rows beyond the bound, in order |
| Keyset.SeekMeaning | src/arvel/database/builder.py:1428-1443 | the OR-of-ANDs predicate holds for a row if and only if the row is strictly after the position in the mixed ascending/descending order |
| Keyset.RequestedOrder | src/arvel/database/builder.py:1464-1467 | the ordering a page is read in is the requested one, then the ascending primary key among rows the request leaves equal if it does not name the key; the key is always part of it |
| Keyset.PageAsRequested | src/arvel/database/builder.py:1460-1497 | every page, forward or backward, shows its rows in the requested order, equal ones by ascending primary key |
| Keyset.SortReversed | src/arvel/database/builder.py:1474-1480 | with distinct keys, scanning with every direction flipped lists exactly the reverse |
| Keyset.RemainingAfter | src/arvel/database/builder.py:1475-1483 | seeking past a listed row leaves exactly the rows behind it |
| Keyset.BackwardSelect | src/arvel/database/builder.py:1472-1483 | the reversed scan of a backward cursor lists exactly the rows before the position, backwards |
| Keyset.BackwardPage | src/arvel/database/builder.py:1482-1497 | a backward page shows the last per_page rows before the position in requested order, with both cursors right |
| Keyset.WalkIncreases | src/arvel/database/builder.py:1448-1508 | along any walk over any changes of the table the delivered keys strictly increase |
| Keyset.WalkAsRequested | src/arvel/database/builder.py:1448-1508 | a whole walk over any changes of the table delivers its rows in the requested order, equal ones by ascending primary key |
| Keyset.WalkReaches | src/arvel/database/builder.py:1448-1508 | a key that stays present is delivered |
| Keyset.WalkExactlyOnce | src/arvel/database/builder.py:1448-1508 | following next_cursor to the end while the table changes arbitrarily between pages delivers every row that stays present with unchanged ordering columns exactly once, in strictly increasing key order |
| Keyset.WalkOnlyMatches | src/arvel/database/builder.py:1448-1508 | every delivered row is a matching row of the table its own page read |
| Keyset.PageCountIsCeiling | src/arvel/database/builder.py:1482-1484 | the page count used below is n / per_page rounded up, one page for an empty listing |
| Keyset.StillWalk | src/arvel/database/builder.py:1448-1508 | on a fixed table the forward walk has ceil(n / per_page) pages that concatenate to the filtered, sorted table |
| Keyset.StepBackAndForth | src/arvel/database/builder.py:1486-1504 | from any later page previous_cursor returns exactly the page before it, whose next_cursor leads forward again; the first page has none |
| Keyset.NextLeadsOn | src/arvel/database/builder.py:1503-1504 | the next cursor of a page of the walk returns exactly the page after it |
| Builder.PivotScopeMeaning | src/arvel/database/relations.py:252-261 | the deferred scope admits exactly the attached ids, and nothing when none is attached |
| Builder.QueryBuilder.EnsurePrepared | src/arvel/database/builder.py:1072-1078 | the deferred scope narrows the conditions once, to the rows that matched and satisfy it; later calls change nothing |
| Builder.QueryBuilder.SeekPredicate | src/arvel/database/builder.py:1428-1443 | the loop builds exactly the specified clause, and fails on a position that misses an ordering column |
| Builder.QueryBuilder.CursorPaginate | src/arvel/database/builder.py:1448-1508 | the page and both cursors are those of the specification, and the rows are in the order that was asked for; says what the builder keeps; a foreign position raises the lookup failure |
| Builder.OnlyForeignCursorsFail | src/arvel/database/builder.py:1471-1476 | a position lacking the ordering columns, as an undecodable cursor gives, fails; every cursor the pages hand out is accepted |
| Builder.SeekBeforeScope | src/arvel/database/builder.py:1072-1078 | adding the deferred scope after the seek bound selects the same rows as before it |
| Builder.QueryBuilder.ChunkById | src/arvel/database/builder.py:556-593 | hands out exactly the specified pages, each of the table as that page finds it; order and limit are as found and the conditions as found plus the scope on every exit, the failing one included |
| Builder.QueryBuilder.Chunk | src/arvel/database/builder.py:595-621 | hands out exactly the offset pages, each of the table as that page finds it; limit and offset are as found on every exit |
| Builder.ChunksPrefix | src/arvel/database/builder.py:580-586 | a callback that stops or fails has seen a prefix of the full walk, ending with the page on which it did, whatever happens to the table between pages |
| Builder.OffsetChunksPrefix | src/arvel/database/builder.py:611-619 | the same for offset batches |
| Builder.ChunksScoped | src/arvel/database/builder.py:561-579 | every row on a page is a row of the table that page read and satisfies the deferred scope, whatever conditions were accumulated |
| Builder.ChunkByIdExactlyOnce | src/arvel/database/builder.py:556-593 | on a unique column, whatever comes, goes or changes between pages, the keys handed out strictly increase, and each key that stays in the table with a matching row is handed out exactly once when the walk ends |
| Builder.ChunkByIdComplete | src/arvel/database/builder.py:556-593 | on a table that stands still every matching row is handed out exactly once in key order if and only if there is nothing to hand out, or the size is positive, no offset is set and no page boundary splits equal keys |
| Builder.UniqueKeyNeverTies | src/arvel/database/builder.py:565-567 | chunking on a unique column never splits equal keys |
| Builder.NonUniqueColumnLosesARow | src/arvel/database/builder.py:556-593 | the concrete loss: two rows with one key, pages of one |
| Builder.OffsetChunksComplete | src/arvel/database/builder.py:595-621 | on a table that stands still offset batches cut the whole listing in its order if and only if the size is positive or there is nothing to list |
| Builder.OffsetChunksSkip | src/arvel/database/builder.py:595-600 | the concrete loss when rows shift: the first row is deleted after its page and the second, there all along, is never handed out |
| Recursive.LevelIsPaths | src/arvel/database/relations.py:1176-1191 | iteration k of the recursive query holds exactly the ends of the parent-link paths of length k |
| Recursive.TerminatesIffNoCycle | src/arvel/database/relations.py:1176-1191 | the recursion ends if and only if no cycle is reachable from the seed |
| Recursive.ResultIsReachability | src/arvel/database/relations.py:1193-1201 | the result is exactly the reachable rows, each with the length of a path to it |
| Recursive.ResultHasNoDuplicates | src/arvel/database/relations.py:1193-1201 | without a reachable cycle no row is returned twice, whether or not the parent in memory is what the table holds |
| Recursive.BatchLevelPerRoot | src/arvel/database/relations.py:1203-1222 | at every iteration the batched rows of one root are that root's own iteration |
| Recursive.BatchEqualsOwn | src/arvel/database/relations.py:1203-1229 | the batched walk regrouped by __root gives a parent with a stored row the rows and depths of its own query if and only if the two start alike: always down, and up when its parent column is as stored or both name no row |
| Recursive.BatchTerminates | src/arvel/database/relations.py:1203-1222 | the batched query ends when every stored parent's own query does |
| Recursive.GoneParent | src/arvel/database/relations.py:1203-1229 | a parent whose row is gone gets nothing from the batch; it agrees with its own query exactly when no rows still point at it |
| Recursive.LeftBehind | src/arvel/database/relations.py:1209-1213 | the concrete case: one child left behind, found alone and not in the batch |
| Recursive.EagerLoad | src/arvel/database/relations.py:1222-1229 | the loop gives each parent the rows tagged with its id, in order |
| Nest.ForestPlacesEachOnce | src/arvel/database/relations.py:1231-1258 | flattening the forest is a permutation of the rows |
| Nest.ForestShaped | src/arvel/database/relations.py:1231-1258 | every node sits under its structural parent and its nesting level is its depth |
| Nest.ResultIsTreeRows | src/arvel/database/relations.py:1193-1201 | what a terminating recursive query returns satisfies everything nesting relies on, whatever parent object it started from |
| Nest.AncestorsAreOneChain | src/arvel/database/relations.py:1231-1258 | in the up direction the forest is one chain in depth order |
| Nest.NestDown | src/arvel/database/relations.py:1231-1258 | the in-place appends leave every dictionary holding exactly the dictionaries of the rows under it |
| Nest.NestUp | src/arvel/database/relations.py:1231-1258 | the in-place assignments leave every dictionary holding exactly the next ancestor |
| Nest.NestShowsForest | src/arvel/database/relations.py:1231-1258 | following the references of the returned dictionaries reads off exactly the forest |
| AfterCommit.InTransaction | src/arvel/database/connections.py:287-301 | inside an open transaction nothing commits and nothing deferred runs; a rolled-back savepoint loses its writes but not its deferred work |
| AfterCommit.SavepointUndoesWrites | src/arvel/database/connections.py:287-301 | a savepoint that an exception leaves undoes its own writes and keeps what was deferred in it; no savepoint touches the database or the log |
| AfterCommit.RolledBackTransaction | src/arvel/database/connections.py:302-310 | a transaction opened outside any other that fails in its body or at COMMIT leaves the data as it was and runs nothing; its deferred work goes with its own buffer, or stays in a dispatcher buffer that was already open |
| AfterCommit.RollbackDropsIffNoBuffer | src/arvel/events/dispatcher.py:206-216 | that work is dropped at once if and only if no dispatcher buffer was open at entry |
| AfterCommit.ScopeFlushesRolledBackWork | src/arvel/events/dispatcher.py:206-229 | inside the dispatcher's own context the work of a rolled-back transaction whose failure is caught is flushed after all |
| AfterCommit.ScopeRunsRolledBackWork | src/arvel/events/dispatcher.py:206-229 | the concrete program: the write is gone and its deferred work runs |
| AfterCommit.OutermostFails | src/arvel/database/connections.py:302-310 | with nothing open around it, a failing transaction leaves the state as it was and runs none of its deferred work |
| AfterCommit.ExecConcat | src/arvel/database/connections.py:287-310 | a program runs in order and stops at the first exception that nobody catches |
| AfterCommit.DeferIsInlined | src/arvel/events/dispatcher.py:178-186 | with no buffer open deferred work runs in its place, as if its body were written there |
| AfterCommit.DeferRunsAtOnce | src/arvel/events/dispatcher.py:178-186 | it runs first of all, and exactly once if no work inside it carries its tag |
| AfterCommit.DeferredByCallback | src/arvel/events/dispatcher.py:178-186 | work that a flushed callback defers runs at once within that callback |
| AfterCommit.WriteOutside | src/arvel/database/connections.py:287-310 | a write outside any transaction is durable at once; an exception there ends the program |
| AfterCommit.OwnScope | src/arvel/events/dispatcher.py:199-229 | the dispatcher's own context drops the buffered work when its body raises, and flushes it otherwise; a caller catches every failure but a cancellation |
| AfterCommit.CommittedTransaction | src/arvel/database/connections.py:302-310 | a committing transaction makes its writes durable and then flushes its deferred work, or leaves it to a dispatcher buffer that was already open |
| AfterCommit.OutermostCommits | src/arvel/events/dispatcher.py:199-229 | a committing outermost transaction makes its writes durable and then, after COMMIT, flushes its deferred work |
| AfterCommit.FlushRunsInOrder | src/arvel/events/dispatcher.py:214-229 | callbacks run in registration order, each once, even when earlier ones raise |
| AfterCommit.FlushRunsUpTo | src/arvel/events/dispatcher.py:221-227 | a callback runs if and only if none before it is cancelled |
| AfterCommit.FlushRunsAll | src/arvel/events/dispatcher.py:214-229 | all of them run if and only if none but the last is cancelled |
| AfterCommit.CancelledDropsTheRest | src/arvel/events/dispatcher.py:221-227 | the concrete case: the second of two callbacks never runs |
| AfterCommit.FlushSurfacesFirst | src/arvel/events/dispatcher.py:218-229 | a cancellation propagates at once, otherwise the first failure surfaces at the end |
| AfterCommit.Conservation | src/arvel/events/dispatcher.py:178-229 | over any program, runs plus buffered occurrences of a piece of work never exceed its deferrals |
| AfterCommit.AtMostOnce | src/arvel/events/dispatcher.py:178-229 | over a whole program deferred work runs at most once |
| AfterCommit.ExactlyOnce | src/arvel/events/dispatcher.py:178-229 | from any state with nothing open, when the outermost transaction commits, a piece of its deferred work runs exactly once more if none before it is cancelled, and not at all otherwise |
| AfterCommit.RunsAreNeat | src/arvel/database/connections.py:287-310 | no deferred work runs between a BEGIN and its COMMIT or ROLLBACK, and transactions do not overlap |
| AfterCommit.Runtime.AfterCommit | src/arvel/events/dispatcher.py:178-186 | appends to the open buffer, or without one does what the execution function does: runs the work at once (DeferIsInlined) |
| AfterCommit.Runtime.Transaction | src/arvel/database/connections.py:287-310 | the two nested contexts on the real fields do what the execution function says |
| AfterCommit.Runtime.LeaveBuffer | src/arvel/events/dispatcher.py:209-229 | the drop and the draining loop do what the specification says |
| Transact.RetriesOnlyTransient | src/arvel/database/connections.py:325-345 | every attempt but the last failed transiently; the last gives the result and is the last because it did not fail transiently or none was left |
| Transact.Used | src/arvel/database/connections.py:338-340 | between one attempt and as many as are left |
| Transact.AllowedAttempts | src/arvel/database/connections.py:333-335 | at most the attempts the caller allows are made, and always one; with an allowance of one or less the call is that one attempt |
| Transact.AllAttemptsFail | src/arvel/database/connections.py:333-345 | when the bodies of all allowed attempts fail transiently each is made, with one BEGIN and one ROLLBACK, nothing is written, and the transient failure surfaces |
| Transact.FirstToEnd | src/arvel/database/connections.py:335-345 | after bodies that failed transiently the first attempt that ends otherwise gives the result |
| Transact.OnlyTheLastAttemptCounts | src/arvel/database/connections.py:325-345 | the call does what its last attempt alone does, but for the BEGIN and ROLLBACK of the failed ones, if and only if no retried attempt had committed |
| Transact.CleanIffNoTransientFlush | src/arvel/database/connections.py:325-345 | the same in terms of callbacks: if and only if no retried attempt committed and then flushed a callback whose transient failure was the first to surface |
| Transact.QuietDeferredWorkIsEnough | src/arvel/database/connections.py:325-345 | for the caller: if no deferred body can raise a transient failure, only the last attempt counts, whatever the bodies and COMMITs do |
| Transact.QuietIff | src/arvel/database/connections.py:337-341 | work is quiet if and only if no failure its text names, deferred bodies and failing COMMITs included, is transient |
| Transact.TransientFlushWritesTwice | src/arvel/database/connections.py:338-345 | otherwise it fails: a transient failure after COMMIT makes the retry write twice |
| Transact.NestedRetryKeepsDeferredWork | src/arvel/database/connections.py:287-345 | nested in a transaction only the last attempt's writes stay, but the outer buffer keeps what every attempt deferred |
| Transact.RetryInScopeKeepsDeferredWork | src/arvel/database/connections.py:287-345 | with only a dispatcher buffer open, only the last attempt's writes stay, but that buffer keeps what every attempt deferred |
| Transact.Transact | src/arvel/database/connections.py:325-345 | the retry loop does what the specification says; an allowance of one or less is a single attempt |
| RefreshTokens.ClaimFacts | src/arvel/auth/refresh.py:65-67 | the conditional UPDATE claims an active token once and otherwise changes nothing |
| RefreshTokens.StepKeeps | src/arvel/auth/refresh.py:36-79 | every database step of every call keeps the invariant; active plus claimed tokens change only by a fresh issue (+1) or a family revocation (down to the claims) |
| RefreshTokens.RunKeeps | src/arvel/auth/refresh.py:36-79 | over any interleaving active plus claimed tokens grow at most by the fresh issues |
| RefreshTokens.NeverMoreThanIssued | src/arvel/auth/refresh.py:36-79 | from the empty table, active tokens plus claimed, not yet reissued rotations never exceed the fresh issues |
| RefreshTokens.OneSuccessor | src/arvel/auth/refresh.py:59-63 | in every interleaving a presented token gets at most one successor, and is revoked by then |
| RefreshTokens.GrantIsGood | src/arvel/auth/refresh.py:76-77 | a successor is handed out only for a new active row of the presented token's user |
| RefreshTokens.SuccessorsStored | src/arvel/auth/refresh.py:55-77 | over any interleaving every successor handed out is stored under the user it was handed to |
| RefreshTokens.RotationsChain | src/arvel/auth/refresh.py:55-77 | the successor of a rotation can be rotated in turn for the same user, its predecessor cannot |
| RefreshTokens.CallsStay | src/arvel/auth/refresh.py:55-77 | no step renumbers a call, changes its token or takes back what a finished call was told |
| RefreshTokens.RevokedForGood | src/arvel/auth/refresh.py:22-25 | a revoked token stays findable and never becomes active again |
| RefreshTokens.RevocationFinalIffNoneInFlight | src/arvel/auth/refresh.py:43-45 | a family revocation leaves no active token, and is final if and only if no rotation of that family is between its claim and its reissue |
| RefreshTokens.WinnerOutlivesRevocation | src/arvel/auth/refresh.py:71-78 | the concrete schedule in which a racing winner's new token survives the family revocation |
| RefreshTokens.UninterruptedIsRotate | src/arvel/auth/refresh.py:48-79 | the steps of a call that nobody interrupts amount to the sequential rotation |
| RefreshTokens.RefreshTokenTable.RotateToken | src/arvel/auth/refresh.py:48-79 | unknown: no effect; active: swapped for one fresh token of the same user; reused: the whole family revoked |
| RememberTokens.ParseCookie | src/arvel/auth/remember.py:51-55 | reading a cookie back gives its selector and validator |
| RememberTokens.ParseOnlyCookies | src/arvel/auth/remember.py:51-55 | only what can have been written as a cookie is accepted |
| RememberTokens.StepKeeps | src/arvel/auth/remember.py:61-136 | every step keeps the invariant; what the table held keeps its selector, owner and expiry or is gone |
| RememberTokens.RunKeeps | src/arvel/auth/remember.py:61-136 | the same over any interleaving: rotation never extends an expiry or changes an owner |
| RememberTokens.OneRotationEach | src/arvel/auth/remember.py:111-121 | in every interleaving each validator wins at most one rotation and is then stored nowhere |
| RememberTokens.GrantedIffStillHeld | src/arvel/auth/remember.py:94-121 | a call is granted if and only if the row it read has no expiry or one not before now, and still holds the validator; the grant names that row's owner |
| RememberTokens.UninterruptedIsRecall | src/arvel/auth/remember.py:81-121 | the steps of a call that nobody interrupts amount to the sequential recall |
| RememberTokens.RecallOutcome | src/arvel/auth/remember.py:94-121 | alone, a cookie is good if and only if its row holds its validator and has no expiry or one not before now; the grant is its owner's; otherwise no row is left behind it; other selectors are untouched |
| RememberTokens.GoodUntilExpiry | src/arvel/auth/remember.py:58-99 | a cookie just issued is granted up to and with its expiry, for its user; later it is refused and its row deleted |
| RememberTokens.NeverExpires | src/arvel/auth/remember.py:97-99 | a row without expiry is good at every moment |
| RememberTokens.LogoutClears | src/arvel/auth/remember.py:124-131 | the steps of a logout delete exactly the row behind the cookie |
| RememberTokens.LogoutEverywhere | src/arvel/auth/remember.py:134-136 | logging out everywhere deletes exactly that user's rows |
| RememberTokens.ReplayKills | src/arvel/auth/remember.py:5-7 | replaying a rotated cookie gets nothing and kills the rotated one too |
| RememberTokens.LoserSparesWinnerIffReadBefore | src/arvel/auth/remember.py:111-120 | the loser of a race leaves the winner's cookie good if and only if it had read the row before the rotation; otherwise it deletes the row |
| RememberTokens.LateLoserKillsTheWinner | src/arvel/auth/remember.py:94-103 | the concrete schedule: the winner holds a grant and no row is left to honour it |
| RememberTokens.RememberTokenTable.RecallCookie | src/arvel/auth/remember.py:81-121 | malformed and unknown cookies change nothing; the rest is the sequential recall |
| RememberTokens.RememberTokenTable.ClearCookie | src/arvel/auth/remember.py:124-131 | exactly the row behind the cookie goes |
| RememberTokens.RememberTokenTable.ClearAll | src/arvel/auth/remember.py:134-136 | exactly the rows of that user go |
| EagerLoading.GroupBy | src/arvel/database/relations.py:118-120 | the setdefault/append loop groups the rows by key, keeping their order |
| EagerLoading.IndexBy | src/arvel/database/relations.py:1102-1102 | the dict comprehension keeps the last row of each key |
| EagerLoading.EagerLoadMany | src/arvel/database/relations.py:107-123 | one query gives each parent exactly its own children under the constraint, in table order, none of another morph type |
| EagerLoading.ChildrenAre | src/arvel/database/relations.py:84-123 | a loaded child carries the parent's key, the morph type if the relation has one, and meets the constraint; alone, a NULL key asks for children without one |
| EagerLoading.BatchEqualsOwn | src/arvel/database/relations.py:107-123 | batched equals alone if and only if the parent's key is not NULL or the table holds no orphans |
| EagerLoading.NullKeyFetchesOrphans | src/arvel/database/relations.py:85-86 | the concrete case: a parent without key, alone, is given an orphan |
| EagerLoading.EagerLoadOwner | src/arvel/database/relations.py:1092-1104 | one query gives each child the last owner with its key under the constraint |
| EagerLoading.OwnerEqualsOwn | src/arvel/database/relations.py:1092-1104 | batched equals alone if and only if at most one row carries the key, or, for a NULL key, no row lacks one |
| EagerLoading.LastOwnerOrFirst | src/arvel/database/relations.py:1102-1104 | the concrete case: together the last of two owners, alone the first |
| EagerLoading.FetchThroughIs | src/arvel/database/relations.py:541-550 | alone, a parent with a key fetches exactly the far rows behind its intermediates, and one without key those behind intermediates that name no parent |
| EagerLoading.EagerLoadThrough | src/arvel/database/relations.py:552-577 | the two queries and dictionaries give each parent the far rows attributed to its key |
| EagerLoading.ThroughEqualsOwn | src/arvel/database/relations.py:559-577 | batched equals alone for all parents if and only if no far row is reached by parents with different keys, and no parent lacks a key while a far row is behind an intermediate that names no parent |
| EagerLoading.SharedLinkIsContested | src/arvel/database/relations.py:559-565 | the concrete case: two intermediates of different parents share a link |
| EagerLoading.NullKeyFetchesStrays | src/arvel/database/relations.py:544-550 | the concrete case: a parent without key fetches, alone, what belongs to an intermediate without parent |
| Pivots.EagerLoadPivot | src/arvel/database/relations.py:302-347 | one pivot query and one related query give each parent what its own pivot rows lead to, with its own pivot data |
| Pivots.LinksAre | src/arvel/database/relations.py:244-250 | the pivot rows of a parent name its key and carry the value of every pivot condition |
| Pivots.SameRows | src/arvel/database/relations.py:282-347 | batched and alone, a parent reaches the same related rows with the same pivot data |
| Pivots.SameRowsAsOften | src/arvel/database/relations.py:282-347 | and equally often if and only if no related row is linked to it twice |
| Pivots.LinkedTwice | src/arvel/database/relations.py:289-292 | the concrete case: a row linked twice is loaded twice in the batch and once alone |
| Pivots.PivotExistsAgrees | src/arvel/database/relations.py:361-378 | with a condition the clause holds exactly when the fetched relation has a matching row; without one, if and only if the parent's pivot rows do not all dangle |
| Pivots.DanglingRowCounts | src/arvel/database/relations.py:361-378 | the concrete case: a dangling pivot row satisfies the clause without condition |
| Pivots.WhereHasPivot | src/arvel/database/builder.py:533-537 | where_has with a condition keeps exactly the parents whose fetched relation has a matching row; doesnt_have keeps exactly those whose relation is empty if and only if no parent's pivot rows all dangle |
| Pivots.PivotCountAgrees | src/arvel/database/relations.py:380-399 | with_count is the size of the batched relation; it is the size of the relation loaded alone if and only if no related row is linked twice |
| WhereHas.ManyAgrees | src/arvel/database/relations.py:137-163 | EXISTS, its negation and COUNT agree with the batch-loaded has-many or morph relation; COUNT agrees with loading alone if and only if the key is not NULL or there are no orphans |
| WhereHas.ScopedClauseAgreesIff | src/arvel/database/relations.py:129-162 | the scopes of the related model, such as soft deletion, are not part of the clauses: EXISTS and COUNT agree with what is loaded if and only if they hide none of the parent's rows |
| WhereHas.OwnerAgrees | src/arvel/database/relations.py:1106-1128 | EXISTS agrees with the fetched owner under every constraint if and only if the rows the key names are one record; COUNT if and only if at most one row carries it; for a NULL key, if and only if no row lacks a key |
| WhereHas.SecondOwnerIsOnlySeenByTheClause | src/arvel/database/relations.py:1106-1118 | with two owners of one key the clause sees one the fetch does not |
| WhereHas.ThroughAgrees | src/arvel/database/relations.py:579-613 | EXISTS and its negation agree with the fetch through an intermediate if and only if the parent has a key or no far row behind a parentless intermediate meets the condition; COUNT does if and only if besides no far row is reached twice |
| WhereHas.ThroughBatchAgrees | src/arvel/database/relations.py:552-593 | EXISTS agrees with the batched relation for all parents under every condition if and only if no far row is contested |
| WhereHas.WhereHasMany | src/arvel/database/builder.py:533-537 | where_has keeps exactly the parents whose relation has a matching row, doesnt_have those whose relation is empty |
| WhereHas.WhereHasOwner | src/arvel/database/builder.py:533-537 | the same for belongs-to relations whose keys name one record each |
| WhereHas.WhereHasThrough | src/arvel/database/builder.py:690-695 | for relations through an intermediate where_has keeps only parents whose fetched relation has a matching row and doesnt_have all whose relation is empty; parent by parent they keep exactly those if and only if its fetch gives only what is its own |
| PivotSync.PivotTable.Attach | src/arvel/database/relations.py:401-411 | one row is added to one pair; every other pair is as it was |
| PivotSync.PivotTable.Detach | src/arvel/database/relations.py:413-417 | exactly the rows of one pair go |
| PivotSync.PivotTable.UpdateExisting | src/arvel/database/relations.py:509-518 | exactly the rows of one pair get the given values |
| PivotSync.PivotTable.AttachedRows | src/arvel/database/relations.py:422-428 | the attached ids, once each, with the last row of each |
| PivotSync.PivotTable.Sync | src/arvel/database/relations.py:430-470 | what becomes of every pair of every parent; the three lists are exact, disjoint and without repeats; three empty lists mean nothing changed |
| PivotSync.SyncIds | src/arvel/database/relations.py:430-470 | the attached ids are the wanted ones, joined by the existing ones when not detaching; other parents keep theirs; unique pairs stay unique |
| PivotSync.SyncListIds | src/arvel/database/relations.py:440-444 | the same for the list as it was passed, repeats included |
| PivotSync.SyncListValues | src/arvel/database/relations.py:440-461 | the row of a listed id holds every value of that id's last entry and keeps every other column |
| PivotSync.DictValue | src/arvel/database/relations.py:440-444 | the mapping made of the list gives each id the columns of its last entry |
| PivotSync.SyncValues | src/arvel/database/relations.py:455-461 | a wanted row stores every given value, NULL included, and keeps every column not given |
| PivotSync.SecondSyncIdle | src/arvel/database/relations.py:430-470 | of two identical calls the second returns three empty lists and leaves the table as it is |
| PivotSync.PivotTable.Toggle | src/arvel/database/relations.py:495-507 | what becomes of every pair of every parent, for any list of ids; the two returned lists in order and with repeats |
| PivotSync.ToggleIds | src/arvel/database/relations.py:495-507 | the attached ids become the symmetric difference; unique pairs stay unique if and only if no missing id is named twice |
| PivotSync.ToggleTwice | src/arvel/database/relations.py:495-507 | toggling the same ids twice attaches exactly the ids that were attached |
| CacheLocks.LiveTable | src/arvel/cache/__init__.py:172-204 | the lazily expiring table refines the table of live locks: what each call changes at every later moment |
| CacheLocks.DeadEntryGoes | src/arvel/cache/__init__.py:172-181 | a refused call leaves no dead entry of its lock, and touches no other |
| CacheLocks.ForeignHandleHarmless | src/arvel/cache/__init__.py:189-201 | an expired or foreign release or refresh is refused and disturbs no lock at any later moment |
| CacheLocks.AcquiredYetNotHeld | src/arvel/cache/__init__.py:182-187 | an acquisition without positive duration reports success and holds nothing |
| CacheLocks.HolderKnows | src/arvel/cache/__init__.py:161-204 | over any run with a non-decreasing clock whoever holds a lock can tell from its own calls |
| CacheLocks.BeliefIsRight | src/arvel/cache/__init__.py:161-204 | without a forced release, whoever concludes from its own calls that it holds the lock does |
| CacheLocks.NeverTwoHolders | src/arvel/cache/__init__.py:161-204 | holding intervals of different owners of one name never overlap |
| CacheLocks.ForcedReleaseDeceives | src/arvel/cache/__init__.py:203-204 | after a forced release two owners may both believe they hold the lock |
| CacheLocks.ArrayLockStore.TryAcquire | src/arvel/cache/__init__.py:182-187 | the method on the table does what the specification says |
| CacheLocks.ArrayLockStore.Release | src/arvel/cache/__init__.py:189-194 | likewise |
| CacheLocks.ArrayLockStore.Refresh | src/arvel/cache/__init__.py:196-201 | likewise |
| CacheTags.CanonicalBySet | src/arvel/cache/__init__.py:323-325 | a combination is the set of its tags, however it was written |
| CacheTags.ScopedKeyOnce | src/arvel/cache/__init__.py:327-328 | scoped keys of tag names without "+" and ":" never collide, whatever the keys contain |
| CacheTags.CollideIff | src/arvel/cache/__init__.py:327-328 | two combinations collide for some keys if and only if their joined names are equal or one followed by a colon begins the other |
| CacheTags.ScopedKeysCollide | src/arvel/cache/__init__.py:327-328 | concrete collisions through either separator in a tag name |
| CacheTags.CacheStore.SetPop | src/arvel/cache/__init__.py:370-370 | pops at most the given number of members, none only when there are none |
| CacheTags.TaggedCache.Register | src/arvel/cache/__init__.py:333-337 | adds the scoped key to the set of each tag, and to no other set |
| CacheTags.TaggedMeans | src/arvel/cache/__init__.py:333-344 | writing an entry adds the combination's tags to its tags and touches no other entry |
| CacheTags.TaggedCache.Put | src/arvel/cache/__init__.py:342-344 | for any tag names keeps every live entry a member of the set of each tag it was written under; stores, or evicts on a dead lifetime |
| CacheTags.TaggedCache.Add | src/arvel/cache/__init__.py:382-386 | stores only what is absent and registers only what was stored, keeping the same invariant |
| CacheTags.TaggedCache.Forget | src/arvel/cache/__init__.py:349-354 | the entry and its memberships go together |
| CacheTags.TaggedCache.Pull | src/arvel/cache/__init__.py:388-389 | reads and deletes one entry |
| CacheTags.TaggedCache.Increment | src/arvel/cache/__init__.py:401-403 | registers, then counts from what is stored or from nothing |
| CacheTags.TaggedCache.Remember | src/arvel/cache/__init__.py:409-411 | serves what is stored or stores what is computed, registered either way, whatever the lifetime |
| CacheTags.TaggedCache.Flush | src/arvel/cache/__init__.py:416-427 | for any tag names deletes exactly the members of these tags and empties their sets, keeping the same invariant |
| CacheTags.FlushLeavesNone | src/arvel/cache/__init__.py:416-427 | a flush leaves no entry written under a flushed tag, under any combination; with plain tag names exactly the entries carrying one are gone |
| CacheTags.FlushForgets | src/arvel/cache/__init__.py:313-316 | after a flush with plain tag names exactly the combinations sharing no tag with it still read what they stored |
| CacheTags.TaggedCache.Prune | src/arvel/cache/__init__.py:356-380 | leaves exactly the live members of these tags and returns the number of dead ones |
| FeatureMemo.ActivateAgrees | src/arvel/features/__init__.py:326-329 | writing a scope keeps memo and store in agreement; for the everyone row, if and only if every borrowed answer already has the value |
| FeatureMemo.ForEveryoneAgrees | src/arvel/features/__init__.py:334-337 | activate_for_everyone keeps agreement if and only if every answer that depends on the row already has the value |
| FeatureMemo.StaleAfterForEveryone | src/arvel/features/__init__.py:334-337 | the concrete case: an answer read from the everyone row goes stale when it is rewritten |
| FeatureMemo.ForgetAgrees | src/arvel/features/__init__.py:342-345 | forgetting keeps agreement; for the everyone row, if and only if no answer was borrowed from it |
| FeatureMemo.ScopesShareKeyIff | src/arvel/features/__init__.py:94-104 | the global scope answers as the configured default, a model as the text of its class and key; two models of classes without a colon share an answer if and only if class and key agree |
| FeatureMemo.FeatureManager.Resolve | src/arvel/features/__init__.py:275-303 | answers as the store alone would: own row, else the everyone row, else the resolver's value, which is then stored; an unknown flag changes nothing |
| FeatureMemo.FeatureManager.Activate | src/arvel/features/__init__.py:326-329 | writes through store and memo, with the exact condition for agreement |
| FeatureMemo.FeatureManager.ActivateForEveryone | src/arvel/features/__init__.py:334-337 | writes the everyone row, with the exact condition for agreement |
| FeatureMemo.FeatureManager.Forget | src/arvel/features/__init__.py:342-345 | drops row and memo entry, with the exact condition for agreement |
| FeatureMemo.FeatureManager.Purge | src/arvel/features/__init__.py:347-360 | drops exactly the rows and this store's memo entries of one flag or of all, keeping agreement |
| FeatureMemo.ArrayFeatureStore.Purge | src/arvel/features/__init__.py:131-133 | the deleting loop leaves exactly the other flags' rows |
| Migrator.RunKeepsReplay | src/arvel/database/migrations.py:314-327 | a run keeps the schema equal to the recorded batches replayed in order |
| Migrator.RollbackKeepsReplay | src/arvel/database/migrations.py:329-342 | so does a rollback, which takes the last batch off |
| Migrator.RunsKeepReplay | src/arvel/database/migrations.py:261-342 | after any sequence of runs and rollbacks, failing ones and growing lists included, the schema equals the recorded batches replayed in order |
| Migrator.RunsOfOneList | src/arvel/database/migrations.py:261-342 | the same from an empty table with one list, asking only that downs undo ups |
| Migrator.RollbackUndoesRun | src/arvel/database/migrations.py:296-342 | a rollback right after a run that applied something restores schema and bookkeeping |
| Migrator.RunAgain | src/arvel/database/migrations.py:314-317 | a repeated run has nothing pending |
| Migrator.ListMayGrow | src/arvel/database/migrations.py:252-255 | a list that keeps the applied migrations in order replays to the same schema, wherever new ones were put |
| Migrator.RollbackMovesOnIffKnown | src/arvel/database/migrations.py:333-341 | a rollback reaches an earlier batch if and only if the list knows every name of the last one |
| Migrator.StuckForGood | src/arvel/database/migrations.py:333-341 | once a name is missing, further rollbacks do nothing |
| Migrator.UnknownNameBlocks | src/arvel/database/migrations.py:333-341 | the concrete case: one unknown name in the second batch and rollback does nothing |
| Migrator.Migrator.Run | src/arvel/database/migrations.py:261-264 | applies all pending migrations as one batch or, when one raises or a name repeats, nothing |
| Migrator.Migrator.Rollback | src/arvel/database/migrations.py:266-269 | reverts all of the last batch that the list knows or, when one raises, nothing |
| JsonApi.CollectDistinct | src/arvel/database/resources.py:284-328 | a walk emits new, distinct identities and marks exactly those as seen |
| JsonApi.LinkageIs | src/arvel/database/resources.py:250-270 | an object's relationships are exactly the loaded relations that no fieldset of its type leaves out, each under its own name |
| JsonApi.LinkageNames | src/arvel/database/resources.py:261-267 | a linkage names exactly the related identities, in order, as one or as many |
| JsonApi.PathSplits | src/arvel/database/resources.py:293-298 | a path splits at its first dot into its first segment and the rest |
| JsonApi.CompoundDocument | src/arvel/database/resources.py:356-379 | on any graph: no two included objects share type and id, each is named by the primary data or an earlier included object, and everything asked for directly is there |
| JsonApi.IncludedIsReached | src/arvel/database/resources.py:284-328 | nothing is included that no include path leads to |
| JsonApi.IncompleteIffSkippingLoses | src/arvel/database/resources.py:317-327 | something the paths lead to is missing if and only if a skipped visit carries a path that no first visit of its node carries, and that path leads to an identity that no first visit has |
| JsonApi.IncludedIffReached | src/arvel/database/resources.py:284-328 | if repeated visits carry no path their first visit did not, an identity is included if and only if some path leads to it; so a primary resource is repeated if and only if some path leads back |
| JsonApi.UnambiguousIsComplete | src/arvel/database/resources.py:284-328 | the same from the graph and the paths alone: if no two visits asked for share an identity without being the same |
| JsonApi.CompleteEverywhereIffUndotted | src/arvel/database/resources.py:284-328 | from the request alone: the document has all that the paths lead to on every graph of distinct resources if and only if no path has a dot |
| JsonApi.UndottedIsComplete | src/arvel/database/resources.py:284-328 | without dots nothing is missing, whether or not the resources are distinct |
| JsonApi.ConvergingPathsLoseAResource | src/arvel/database/resources.py:317-327 | the concrete case: two paths meet at one resource and what lies beyond the later one is missing |
| JsonApi.PrimaryRepeatedIff | src/arvel/database/resources.py:312-325 | for paths without a dot, an identity is included if and only if a primary resource's asked-for relation leads to it, the primary's own included |
| JsonApi.CyclicIncludeRepeatsPrimary | src/arvel/database/resources.py:330-336 | a path that leads back includes the primary resource a second time |
| JsonApi.Walker.CollectIncluded | src/arvel/database/resources.py:284-328 | the nested loops over the shared set emit exactly what the specification says |
| JsonApi.Walker.ToPayload | src/arvel/database/resources.py:356-379 | the document is the specified one |
| Ulid.RoundTrip | src/arvel/database/model.py:137-140 | decoding n characters gives the low 5n bits back |
| Ulid.AlphabetIs | src/arvel/database/model.py:138-138 | the digits and the capital letters but I, L, O and U, ascending |
| Ulid.EncodeFaithful | src/arvel/database/model.py:132-140 | below 2^130: 26 characters that decode back, injective, and compared as strings exactly as the values compare |
| Ulid.EncodeCollides | src/arvel/database/model.py:139-139 | two values share an id if and only if they agree modulo 2^130 |
| Ulid.SortsByTime | src/arvel/database/model.py:137-140 | ids sort by millisecond first and by the random bits within one |

## Left out

- Builder.QueryBuilder.CursorPaginate: takes a decoded cursor, because the base64 and JSON codec and the coercion of column types are not part of this model; one builder serves one page, no union is set.
- Builder.QueryBuilder.ChunkById: the outcome of a callback depends on the page it is given; a walk over finitely many states of the table is all that is said of one that never ends. A negative size goes to SQL as it is, where engines disagree, and is not modelled.
- Keyset.WalkExactlyOnce: ordering columns hold no NULLs and directions are exactly ascending or descending.
- Recursive.BatchEqualsOwn: compares with the parent's own query where that ends; `Recursive.GoneParent` and `Recursive.TerminatesIffNoCycle` cover the rest.
- Nest.NestUp: rows come from one terminating query, so each row has at most one next ancestor.
- AfterCommit.Runtime.Transaction: one task and one connection; a failing RELEASE of a savepoint is not modelled, and the bodies of callbacks are programs of the same small language.
- Transact.Transact: the sleeps between attempts take no time.
- RefreshTokens.NeverMoreThanIssued: a database step is atomic, and audit logging is not modelled.
- RememberTokens.RunKeeps: primary keys are not reused after a delete; the session handling of the middleware is not modelled.
- EagerLoading.EagerLoadMany: returns the loaded relations in the order of the parents instead of setting them on shared parent objects; has-one and has-one-through take the first of what is loaded here.
- EagerLoading.FetchThroughIs: a key attribute that was not loaded at all is a lookup failure of the lone query of through and morph relations; here every attribute is loaded, and absent means NULL.
- EagerLoading.OwnerEqualsOwn: the table has no two equal records.
- Pivots.EagerLoadPivot: pivot keys are not NULL and each parent's copies are values, so that copies are not shared is built in rather than proved.
- WhereHas.WhereHasOwner: asks that the rows each child's key can name are one record; `WhereHas.OwnerAgrees` shows that it must.
- WhereHas.ScopedClauseAgreesIff: has-one, has-many and morph relations; elsewhere the related table is what its scopes let through.
- PivotSync.PivotTable.Sync: without `where_pivot`; the order of rows across different pairs is not stated.
- CacheTags.TaggedCache.Flush: each tagged operation is one step, so a write whose registration is popped by a flush before its entry is stored is not modelled; lifetimes end by an explicit eviction.
- CacheLocks.NeverTwoHolders: the array driver only; the redis scripts, `block` and the callback form are not part of this model.
- FeatureMemo.FeatureManager.Resolve: one task; two tasks resolving one flag at once are not modelled. The stores for the database and the cache are not part of this model.
- Migrator.Migrator.Run: the database rolls schema changes back with the transaction.
- JsonApi.IncludedIsReached: one direction; the other needs the condition of `JsonApi.IncludedIffReached`, and `JsonApi.IncompleteIffSkippingLoses` says exactly when it fails.
- Attributes, links and meta of JSON:API documents, missing-value stripping and the splitting of the include parameter.
- Morph-to, morph-to-many and morphed-by-many relations: the same shapes as belongs-to and belongs-to-many with a type column.
- Bulk update and delete, unions, joins, locking hints, JSON-path, full-text and vector clauses: they only emit SQL.
- An event that asks to be dispatched after commit is one more deferred callback; listeners, queued listeners and broadcasting are not part of this model.
- Factories, casts, observers, timestamps, serialization, console commands.
