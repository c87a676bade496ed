# Caches, cleaner and content of GoToSocial

A model, with proofs, of the stateful core of a GoToSocial server: how an invalidation spreads through
the caches, how the media and emoji cleaner reconciles database rows with files in storage, how the
memory target is split over the caches, and how ActivityStreams content survives being sent and received.
`dafny verify dfyconfig.toml` checks all of it.

## The parts

**Caches.** `Records` holds the cached models, the indices of each cache and the keys of the ID lists.
`Cascade` says what one invalidation removes: the cached records that a chain of hook edges leads to.
`Caches` is the mutable object with its sixteen hooks; they call each other through `Invalidate` in
cycles (Follow and FollowRequest, Status and Media, Poll and PollVote) and terminate because records leave
their cache before their hook runs. The class has two ways of deleting the key of an index. With the
documented one every hook ends in the state `Cascade.After` describes; with that of the vendored library,
which hands on half of the records, in one that `Cascade.Clears` allows: keys that held at most one record
are cleared for sure.
`Graph` is the theory of reachability underneath.
`Coherence`, `Runs` and `Exactness` put the caches beside the database: over every run of loads, writes,
deletes, accepted follow requests, invalidations and evictions, each cached ID list is the list selected
from the current rows, with either deletion; each cached visibility is the freshly computed one with the
documented deletion, and with the vendored one as long as the visibility keys that hooks name hold at most
one record. `Database` is the imperative form of the row operations, `StructrIndex` an index of the vendored
library, and `VendoredDeletion` what its deletion means for one key.

**Cleaner.** `Batches` is the cursor-paged query. `CleanerModel` has the two stores, what each pass is for,
and what handling rows one after the other leads to. `Cleaner` is the code: each call of the database or of
the storage driver may fail, a failed write may or may not have taken effect, and a pass stops at the first
error. `CleanerTheorems` says what the passes achieve.

**Budget**, **Schedule**, **Content**, **ListNormalization** and **Extract** are the remaining parts: cache
capacities, the first run of the cleaner, content out and in, list properties rewritten from raw JSON, and
the extraction loops.

## What does not hold of the code

Each of these has a lemma or contract with the exact condition under which the code is right.

- Changing or clearing the parent of a status leaves it in the cached replies of the former parent, as the
  hook sees the new parent only: `Exactness.ReparentIff`, `Exactness.ClearedParentStalesList`.
- Deleting a row by ID without first loading it (as bookmarks are deleted) can leave its ID in a cached
  list: `Exactness.DeleteUnloadedIff`, `Exactness.UncachedBookmarkStays`.
- Deleting all follows, follow requests or blocks of an account loads the rows of one direction only. Those
  of the other can stay in the cached lists of other accounts (`Exactness.DeleteManyIff`,
  `Exactness.IncomingFollowStays`) and leave what these can see cached as it was
  (`Exactness.DeleteManyVisibilityIff`, `Exactness.IncomingFollowStalesVisibility`).
- The query for the follow requests an account has sent compares the target account, although its comment
  says otherwise; the model follows the code: `Exactness.RequestingListIff`.
- The vendored index hands on only half the records of a key, rounded up: `StructrIndex.Index.Delete`,
  `VendoredDeletion.KeyClearedIff`, `VendoredDeletion.BlockLeavesStaleVisibility`.
- Paging by creation time passes over rows when a full batch ends inside a group created at the same time:
  `Batches.VisitsAllIff`, `Batches.OneGroupOfFiftyOne`, `CleanerTheorems.UncacheRemoteExactly`.
- Three caches are sized by the total of ratios without being counted in it, so the target can be exceeded,
  and is with the defaults: `Budget.WithinTargetIff`, `Budget.TargetCanBeExceeded`.
- Content changes its meaning on the way to another server when an IRI entry stands where no non-empty text
  came before it, or when the first language map says other things than the first non-empty one:
  `Content.TripKeepsMeaningIff`.
- Splitting a list by type drops and keeps the wrong elements unless only the last one matches:
  `Extract.ExtractMatching`.

One more holds of the database layer, for states the rest of the code does not create: an account row that
appears or changes between local and remote while follows refer to it leaves local follow lists of other
accounts stale (`Exactness.AccountWriteIff`, `Exactness.NewLocalAccountStalesList`).

## Assumptions

- `structr` invalidation is documented to remove all results stored under a key. The vendored version does so
  for a key with at most one record, and so for all unique indices; the class `Caches` has both, and
  `Runs.RunsAreCoherent` covers both. ID lists need no more than that IDs are cleared, which
  `Database.Database.Put` and `Database.Database.Delete` maintain. Visibility needs the `ItemID` and
  `RequesterID` keys that hooks name to be cleared (`VendoredDeletion.BlockLeavesStaleVisibility` is what
  happens otherwise); `Runs.DocumentedRunsAreCoherent` is for the documented deletion.
- A record stored under a taken key of a unique index replaces the record there. In the model that record
  leaves the cache; in the library it loses this key and stays under its others, where it counts among the
  records of a key, and where its hook, if it is ever run, only drops more. Visibilities are not displaced:
  one is loaded only while none is stored for its lookup.
- The columns an ID list is selected by, but for the parent of a status, and the accounts of a follow, follow
  request, block or mute, never change once a row exists; IDs and those accounts are not empty. A statement
  that fails leaves no row behind.
- What a list query returns depends on the cache and the selected IDs only. Lists have different orders, and
  that of faves has none, so each cache has a relation of its own between IDs and results.
- A visibility depends on the item's own record and on the follows and blocks between the requester and the
  item's owner.
- Database pages are as documented: at most 50 rows below the cursor, in descending order; rows created at
  the same time come in descending order of ID.
- No two rows share a file in storage: the paths of an attachment carry its own ID. The cache-state pass
  relies on it. `CleanerTheorems.DryRunAgreesIff` and `CleanerTheorems.FixCacheStatesRestores` say exactly
  what holds without it: a dry run would report other rows (`CleanerTheorems.DryRunCanDiffer`), and a fix
  could undo another.
- IDs in the cleaner are numbers with the order of the ID column, unique across tables; times are whole
  seconds and the clock stands still during a pass.

## Model

| member | source | states |
|---|---|---|
| Graph.ReachIsClosed | internal/cache/invalidate.go:29-220 | Whatever a reached record leads to, and is cached, is reached. |
| Graph.ReachIsLeast | internal/cache/invalidate.go:29-220 | Nothing else is reached: every set with the start and closed under edges holds all of it. |
| Graph.ReachedBySimpleChain | internal/cache/invalidate.go:91-199 | A record is reached if and only if it is without coming by any record twice, in at most as many steps as there are cached records, although the hooks run in cycles. |
| Graph.ReachCompose | internal/cache/invalidate.go:29-220 | Two calls in a row remove together what both starts reach together, despite the first having thinned out the graph. |
| Graph.ReachUnfold | vendor/codeberg.org/gruf/go-structr/cache.go:434-476 | Taking the named records out first and running their hooks afterwards loses nothing, although chains may have led back through them. |
| Records.HitsAreFound | internal/cache/db.go:188-1391 | A key of an index finds a record exactly when the record's own fields are the key's values: the indices of all caches, read index by index. |
| Records.CompetesIffShared | internal/cache/db.go:188-1391 | Two records compete for a key exactly when they agree on fields that only one record of their model may have. |
| Cascade.EdgesAreDerivations | internal/cache/invalidate.go:29-220 | The hooks' calls reach a record if and only if its own fields make it depend on the other record. |
| Cascade.HooksDropConcerned | internal/cache/invalidate.go:29-220 | The hooks drop a list if and only if it concerns the record, by the list's key and the record's own fields. |
| Cascade.NamedListsGo | internal/cache/invalidate.go:29-220 | After the hook of a record no list that concerns it is left, with either deletion. |
| Cascade.InvalidateRemovesReachable | internal/cache/invalidate.go:29-220 | A cached record is gone after a batch if and only if a chain leads to it from a record the batch names; one without repetition is enough. |
| Cascade.SurvivorsAreUntouched | internal/cache/invalidate.go:29-220 | No survivor was named or depends directly on a record that went. |
| Cascade.ListsDropped | internal/cache/invalidate.go:29-220 | An ID list stays, with its value, if and only if neither the batch nor the hook of any removed record drops it. |
| Cascade.AfterNothing | internal/cache/invalidate.go:29-220 | No calls, no change. |
| Cascade.AfterCompose | internal/cache/invalidate.go:29-220 | Invalidating one batch after another equals invalidating both at once. |
| Cascade.AfterUnfold | vendor/codeberg.org/gruf/go-structr/cache.go:434-476 | Removing all named records before any hook runs ends where following hook by hook would. |
| Cascade.RunAllIsTotal | internal/cache/invalidate.go:29-220 | A sequence of calls of any length ends where its union ends. |
| Cascade.TotalMembers | internal/cache/invalidate.go:29-220 | The union holds exactly the keys some call names. |
| Cascade.OrderOfCallsIrrelevant | internal/cache/invalidate.go:29-220 | The final state does not depend on the order or repetition of the calls inside a hook. |
| Cascade.StoredFollowSurvives | internal/cache/invalidate.go:91-134 | A follow just stored is evicted again by its own hook if and only if a follow request with its ID is cached: the Follow-FollowRequest cycle, exactly. |
| Cascade.AfterClears | vendor/codeberg.org/gruf/go-structr/cache.go:434-476 | The documented invalidation is one of those that are sure to clear certain keys, whichever keys these are. |
| Cascade.SureIsAfter | vendor/codeberg.org/gruf/go-structr/cache.go:434-476 | When every key on the way is sure to be cleared, the outcome is the documented one. |
| Cascade.ClearsNothing | vendor/codeberg.org/gruf/go-structr/cache.go:434-476 | No calls, no change, whatever is sure. |
| Cascade.ClearsCompose | vendor/codeberg.org/gruf/go-structr/cache.go:434-476 | One invalidation after another clears at least what both together are sure to clear, although the first may have left records behind. |
| Cascade.ClearsUnfold | vendor/codeberg.org/gruf/go-structr/cache.go:447-475 | Taking out some of the named records, with all those under sure keys among them, and then running their hooks, is such an invalidation. |
| Caches.Caches.Load | internal/cache/wrappers.go:40-59 | A cached list is returned unchanged; otherwise the loaded one is cached and returned, and a failed load caches nothing. |
| Caches.Caches.LoadOne | vendor/codeberg.org/gruf/go-structr/cache.go:218-312 | A record listed under the key is returned; otherwise the loaded one enters the cache; no hook runs and no list changes. |
| Caches.Caches.Store | vendor/codeberg.org/gruf/go-structr/cache.go:407-428 | The hook of the value runs whether or not the statement succeeds; only on success is the value cached. |
| Caches.Caches.Evict | internal/cache/wrappers.go:66-69 | Eviction takes records and lists away and runs no hook. |
| Caches.Caches.InvalidateLists | internal/cache/wrappers.go:61-64 | Exactly the named lists go. |
| Caches.Caches.InvalidateKeys | vendor/codeberg.org/gruf/go-structr/cache.go:434-476 | The imperative traversal, in any order of hooks, terminates and removes only what is reachable from the keys, with the hooks of all it removes run and every sure key cleared; with complete deletion, exactly what is reachable. |
| Caches.Caches.TakeOut | vendor/codeberg.org/gruf/go-structr/cache.go:447-461 | Records under the keys leave the cache before any hook, all those under sure keys among them. |
| Caches.Caches.TakeOutKey | vendor/codeberg.org/gruf/go-structr/index.go:279-314 | Half of the records listed under a key leave with the vendored loop, all with complete deletion; every key that held at most one record before is still cleared when its turn comes. |
| Caches.CompleteIsAfter | vendor/codeberg.org/gruf/go-structr/cache.go:433-476 | With complete deletion every hook and invalidation ends exactly in the documented state. |
| Caches.StoringKeepsIDs | vendor/codeberg.org/gruf/go-structr/index.go:239-276 | Storing a record leaves every ID with at most one record, listed under it, so that IDs stay sure to be cleared. |
| Caches.StoringReplacesShared | vendor/codeberg.org/gruf/go-structr/index.go:239-276 | After storing, exactly the record and those that share nothing unique with it are cached. |
| Caches.Caches.RunHooks | vendor/codeberg.org/gruf/go-structr/cache.go:465-475 | Running the hooks of removed records in any order has the joint effect of all their calls, as far as keys are sure to be cleared. |
| Caches.Caches.Invalidate | internal/cache/wrappers.go:166-171 | Invalidating a key clears it if it is sure, removes only what is reachable from it, and clears every sure key on the way. |
| Caches.Caches.InvalidateIDs | internal/cache/wrappers.go:173-194 | The same for a list of IDs, all of them out before the first hook. |
| Caches.Caches.OnInvalidateAccount | internal/cache/invalidate.go:29-61 | Clears what depends on the account, and leaves none of its four follow lists, two request lists and block list. |
| Caches.Caches.OnInvalidateApplication | internal/cache/invalidate.go:63-66 | Reaches the application's client and the tokens behind it. |
| Caches.Caches.OnInvalidateBlock | internal/cache/invalidate.go:68-79 | Drops visibility of both accounts in both roles, and the origin's block list. |
| Caches.Caches.OnInvalidateClient | internal/cache/invalidate.go:81-84 | Drops the client's tokens. |
| Caches.Caches.OnInvalidateEmojiCategory | internal/cache/invalidate.go:86-89 | Drops the emoji of the category. |
| Caches.Caches.OnInvalidateFollow | internal/cache/invalidate.go:91-119 | Clears through the follow request of the same ID and back, list entries and visibility, and leaves none of the four follow lists of either account. |
| Caches.Caches.OnInvalidateFollowRequest | internal/cache/invalidate.go:121-134 | Clears through the follow of the same ID, and leaves neither request list of either account. |
| Caches.Caches.OnInvalidateList | internal/cache/invalidate.go:136-139 | Drops the entries of the list. |
| Caches.Caches.OnInvalidateMedia | internal/cache/invalidate.go:141-152 | Ends in the closure through the account (for avatars and headers) and the status, and so the account's moves. |
| Caches.Caches.OnInvalidatePoll | internal/cache/invalidate.go:154-160 | Ends in the closure through the votes and back to the poll. |
| Caches.Caches.OnInvalidatePollVote | internal/cache/invalidate.go:162-168 | Ends in the closure through the poll and its other votes. |
| Caches.Caches.OnInvalidateStatus | internal/cache/invalidate.go:170-199 | Ends in the closure through its media, poll and statistics, and drops the boost and reply lists of its originals. |
| Caches.Caches.OnInvalidateStatusBookmark | internal/cache/invalidate.go:201-204 | Drops the status's bookmark list. |
| Caches.Caches.OnInvalidateStatusFave | internal/cache/invalidate.go:206-209 | Drops the status's fave list. |
| Caches.Caches.OnInvalidateUser | internal/cache/invalidate.go:211-215 | Drops visibility of the user's account in both roles. |
| Caches.Caches.OnInvalidateUserMute | internal/cache/invalidate.go:217-220 | Drops the account's mute list. |
| Caches.Caches.OnInvalidate | internal/cache/db.go:600-635 | Every cache runs the hook of its own model, after which no list that concerns the record is left; a cache without a hook changes nothing. |
| Coherence.MembersAreCovered | internal/cache/invalidate.go:55-220 | The hook of any version of a row drops every list the row is in, but for the replies to a parent that this version no longer has. |
| Coherence.SelectUnchanged | internal/cache/invalidate.go:55-220 | A list the hook does not drop selects the same rows after a write that takes no reply off the list's parent and changes no locality the list hangs on. |
| Coherence.FreshUnchanged | internal/cache/invalidate.go:68-104 | A visibility the hook does not reach has the same fresh value before and after the write, for any judgement on the item and the relation. |
| Coherence.CoveredLists | internal/cache/invalidate.go:24-27 | A write that spares the lists its hook leaves keeps all lists right, whatever else it changes in the row. |
| Coherence.CoveredVisibility | internal/cache/invalidate.go:24-27 | A write after which no cached visibility derives from the row keeps all visibilities fresh. |
| Coherence.HookLeavesNothing | internal/cache/invalidate.go:24-27 | After a hook no list it drops is left, even if some keys were not cleared; and no visibility deriving from its record, if the visibility keys were. |
| Coherence.InvalidatingLeavesNothing | internal/cache/invalidate.go:24-27 | The same for a cached record that is invalidated by its ID; and no version of it is left. |
| Runs.StoreKeeps | internal/db/bundb/status.go:393-401 | Put or update of any row keeps every cached list and visibility right if it spares the lists still cached afterwards; so also when it gives a status a parent or takes one whose replies are not cached. |
| Runs.StepIsApply | vendor/codeberg.org/gruf/go-structr/cache.go:433-476 | Steps that are sure to clear every key are the steps of the documented invalidation. |
| Runs.StoredRows | internal/db/bundb/relationship_follow.go:221-246 | A put leaves the row in place of those of its model with its ID, and every other row. |
| Runs.DeletedRows | internal/db/bundb/relationship_follow.go:289-307 | A delete leaves exactly the rows of another model or another ID. |
| Runs.StoredThenDeleted | internal/db/bundb/relationship_follow.go:221-307 | A new row stored and deleted again leaves the rows as they were. |
| Runs.AcceptedFollow | internal/db/bundb/relationship_follow_req.go:232-256 | An accepted request leaves a follow from the same account to the same target with its URI, under its own ID unless there already was one between them. |
| Runs.AcceptedRows | internal/db/bundb/relationship_follow_req.go:245-265 | The request is gone, and other rows stay. |
| Runs.ReturnedLeavesNothing | internal/db/bundb/poll.go:526-529 | After the delete of a fave or a vote, the row, the vote's poll and the list are not cached any more. |
| Runs.LoadedList | internal/cache/wrappers.go:40-59 | A list that was loaded is cached, and one that was cached before is kept. |
| Runs.LoadedRow | vendor/codeberg.org/gruf/go-structr/cache.go:218-312 | A row that was loaded is cached in some version. |
| Runs.LoadedVisibility | vendor/codeberg.org/gruf/go-structr/cache.go:218-312 | A visibility that was loaded is cached under its lookup. |
| Runs.DeleteKeeps | internal/db/bundb/relationship_follow.go:289-307 | Load, delete, invalidate keeps them right, also when an older version of the row was cached. |
| Runs.AcceptReachesRequest | internal/db/bundb/relationship_follow_req.go:225-256 | The hook of the follow that replaces a request reaches the cached request, so that nothing depending on the request is left although it is never invalidated itself. |
| Runs.AcceptKeeps | internal/db/bundb/relationship_follow_req.go:225-275 | Accepting a follow request keeps them right, also when a follow between the accounts already exists under another ID. |
| Runs.DeleteReturningKeeps | internal/db/bundb/statusfave.go:245-272 | Deleting a fave or a poll vote without loading it keeps lists and visibility right, as the list is dropped by hand. |
| Runs.StepKeeps | internal/cache/invalidate.go:24-27 | Every step of the database layer keeps every cached list equal to its selection if it is sure to clear IDs, and every cached visibility fresh if it is also sure to clear the visibility keys its hooks name. |
| Runs.RunKeeps | internal/cache/invalidate.go:24-27 | So does every run, from any consistent state; the keys cleared may differ from step to step. |
| Runs.RunsAreCoherent | internal/cache/invalidate.go:24-220 | From empty caches, at every point of every run, all nine kinds of ID list agree with the database if IDs are sure to be cleared; and all visibilities, as long as the visibility keys that hooks named were. |
| Runs.DocumentedRunsAreCoherent | internal/cache/invalidate.go:24-220 | With the documented invalidation, lists and visibilities agree at every point without further conditions. |
| Exactness.FollowKeysAreDistinct | internal/cache/db.go:83-89 | No two of the prefixed keys of the follow lists coincide, for any account IDs. |
| Exactness.FollowListHolds | internal/db/bundb/relationship.go:304-356 | Each of the four follow lists of an account holds exactly its outgoing or incoming follows, for the local ones those with a local account at the other end. |
| Exactness.OtherListsHold | internal/db/bundb/relationship.go:286-302 | What each of the other lists holds, in the fields of the row; both request lists hold received requests. |
| Exactness.SelectHolds | internal/db/bundb/relationship.go:271-365 | A list has exactly the IDs of its members. |
| Exactness.DeleteTakesOneID | internal/db/bundb/relationship_follow.go:289-307 | A delete takes the row's ID from every list that had it, and nothing else from any list. |
| Exactness.StorePutsOneID | internal/db/bundb/relationship_follow.go:221-246 | A put adds the row's ID to exactly the lists the row belongs in, and takes it from the others of its cache. |
| Exactness.StoreIff | internal/cache/invalidate.go:24-27 | Writing a row keeps the lists right if and only if it spares every cached list that the cascade does not drop. |
| Exactness.ReparentIff | internal/federation/dereferencing/thread.go:401-420 | Updating a status keeps the lists right if and only if its parent stays, it had none, or the replies to the former one are not cached or dropped on the way. |
| Exactness.ClearedParentStalesList | internal/federation/dereferencing/thread.go:156-166 | A reply whose parent is cleared, for which that fails. |
| Exactness.DeleteManyIff | internal/db/bundb/relationship_follow.go:329-375 | Deleting rows and invalidating keys keeps the lists right if and only if each cached list with one of the rows is dropped, by the keys or by the hook of a removed record. |
| Exactness.LoadedDeletesKeep | internal/db/bundb/relationship_follow.go:329-375 | In particular when a version of each row is cached under one of the keys. |
| Exactness.IncomingFollowStays | internal/db/bundb/relationship_follow.go:346-354 | The delete of all follows of an account, which loads only the outgoing ones: an incoming one for which that fails. |
| Exactness.JudgedRows | internal/cache/visibility.go:70-83 | What a visibility is judged on, in fields: the account or status with the item's ID, and follows and blocks between requester and owner, either way. |
| Exactness.FreshWithoutIff | internal/db/bundb/relationship_follow.go:351-354 | Deleting rows leaves a visibility the same for every judgement if and only if it was judged on none of them. |
| Exactness.DeleteManyVisibilityIff | internal/db/bundb/relationship_follow.go:329-375 | The deletes keep cached visibility right for every judgement if and only if each cached one that was judged on a deleted row is removed, by the keys or on the way. |
| Exactness.LeftFreshIff | internal/db/bundb/relationship_follow.go:329-375 | For one judgement that is whether the values left are unchanged. |
| Exactness.LoadedDeletesKeepVisibility | internal/db/bundb/relationship_follow.go:351-354 | Loading a version of each row is enough, as the comment there says. |
| Exactness.IncomingFollowStalesVisibility | internal/db/bundb/relationship_follow.go:346-354 | An incoming follow that is not loaded, for which visibility is left stale. |
| Exactness.DeleteUnloadedIff | internal/db/bundb/statusbookmark.go:259-270 | Deleting without loading keeps the lists right if and only if a version of the row is cached or no cached list holds it. |
| Exactness.UncachedBookmarkStays | internal/db/bundb/statusbookmark.go:259-270 | A bookmark for which that fails. |
| Exactness.AccountWriteIff | internal/db/bundb/relationship.go:313-356 | An account write keeps the lists right if and only if locality is unchanged or no other account's cached local list hangs on it. |
| Exactness.NewLocalAccountStalesList | internal/db/bundb/relationship.go:313-329 | Rows for which that fails, at the level of the database layer. |
| Exactness.AccountHookLists | internal/cache/invalidate.go:29-61 | The whole cascade from an account drops exactly its four follow lists, its two request lists and its block list. |
| Exactness.RequestingListIff | internal/db/bundb/relationship.go:295-302 | The list of sent requests is right if and only if the account's sent and received requests are the same ones. |
| StructrIndex.Index.Append | vendor/codeberg.org/gruf/go-structr/index.go:239-276 | A unique index holds exactly one item under the key afterwards, and the one before loses this key only; another index holds the item before all others. |
| StructrIndex.Index.Delete | vendor/codeberg.org/gruf/go-structr/index.go:279-314 | The key goes; the first half of its items, rounded up, is passed on, and so all of them if and only if there was at most one, as in every unique index. |
| StructrIndex.PopWhileShrinking | vendor/codeberg.org/gruf/go-structr/index.go:295-311 | Why: the loop stops half-way because its bound shrinks with the list. |
| StructrIndex.TakeHalf | vendor/codeberg.org/gruf/go-structr/index.go:295-311 | Of a set of records, in whatever order the index keeps them, half leave, rounded up, and all if and only if there is at most one. |
| VendoredDeletion.KeyClearedIff | vendor/codeberg.org/gruf/go-structr/index.go:279-314 | The records under a key have all left the cache if and only if there was at most one; otherwise exactly the last half stays cached, under their other keys. |
| VendoredDeletion.BlockLeavesStaleVisibility | internal/cache/invalidate.go:68-79 | With the vendored deletion, a block leaves one of two cached lookups of the blocker stale, whatever the order of the list. |
| VendoredDeletion.InsertKeepsUniqueKeys | vendor/codeberg.org/gruf/go-structr/index.go:239-276 | Storing keeps at most one record under each key of a unique index. |
| VendoredDeletion.UniqueIndexHoldsOne | internal/cache/db.go:622-629 | So the deletion meets its contract for every unique index. |
| Database.Database.GetIDs | internal/db/bundb/relationship.go:271-284 | The IDs returned are ones the query may return for the current rows when the cached lists are right; a failing query fails the call only if the list is not cached, and caches nothing. |
| Database.Database.Put | internal/db/bundb/relationship_follow.go:221-226 | On caches with either deletion, the store step of a run that is sure to clear IDs, or its failing variant; the row replaces exactly those of its model and ID, and a failing put changes no row. |
| Database.Database.Delete | internal/db/bundb/relationship_follow.go:289-307 | On caches with either deletion, the delete step of such a run; exactly the rows of another model or ID are left. |
| Database.Database.DeleteFave | internal/db/bundb/statusfave.go:245-272 | So is the delete of a fave, which drops the list itself; exactly the fave is gone. |
| Batches.OrderedIsSorted | internal/db/bundb/media.go:276-294 | The reference order: distinct rows, by descending key and then ID. |
| Batches.BatchIsFront | internal/db/bundb/media.go:276-294 | A batch is a front of that order: what it leaves out has no greater key. |
| Batches.VisitsInOrder | internal/cleaner/media.go:185-214 | The batches deliver no row twice and keep the order. |
| Batches.VisitsAllIff | internal/cleaner/media.go:185-214 | They deliver every row if and only if, in the sorted table, the last row of no full batch has the key of the row after it. |
| Batches.StraddlesIff | internal/cleaner/media.go:185-214 | What the loop meets batch by batch is decided by the sorted table at once. |
| Batches.TiesDoNotMatter | internal/db/bundb/media.go:279-290 | That does not depend on the order in which the database gives rows of one time. |
| Batches.OneGroupOfFiftyOne | internal/cleaner/media.go:185-214 | Fifty-one rows of one time, of which one is never visited. |
| Batches.OneGroupOfFifty | internal/cleaner/cleaner.go:31-33 | Fifty rows of one time, all of which are visited. |
| Batches.InOrderIsUnique | internal/cleaner/media.go:136-168 | The order fixes the sequence. |
| Batches.VisitsAreOrdered | internal/cleaner/media.go:185-214 | Without a cut group, paging equals one sorted query. |
| Batches.DistinctKeysVisitAll | internal/cleaner/media.go:136-168 | Paging by ID always equals one sorted query. |
| CleanerModel.SafeTransitive | internal/cleaner/media.go:545-592 | Safety of single steps adds up over any number of them. |
| CleanerModel.TouchesCompose | internal/cleaner/media.go:545-592 | Steps that touch only given rows and their files do so together. |
| CleanerModel.SelectedFields | internal/db/bundb/media.go:223-297 | Which rows each pass selects, in their fields: but for unused attachments, only remote ones. |
| CleanerModel.SweptAppend | internal/cleaner/media.go:155-167 | Handling one list of rows after another is handling both. |
| CleanerModel.SweptFrame | internal/cleaner/media.go:155-167 | Rows not visited stay, and no row changes but for becoming uncached. |
| CleanerModel.RemainingUnchanged | internal/cleaner/media.go:136-153 | Deleting and updating rows above the cursor leaves the rows still to be queried as they were. |
| CleanerModel.BatchDone | internal/cleaner/media.go:155-167 | Batch counts add up without counting a row twice. |
| CleanerModel.NextBatch | internal/cleaner/media.go:143-153 | The next query continues where the last batch ended, and fewer rows remain. |
| Cleaner.Cleaner.HaveFiles | internal/cleaner/cleaner.go:60-73 | Whether all files exist, unless storage fails. |
| Cleaner.Cleaner.RemoveFiles | internal/cleaner/cleaner.go:75-106 | No other file is touched; the files still there number at most the failures reported; without an error all are gone. |
| Cleaner.Cleaner.Uncache | internal/cleaner/media.go:545-568 | Safe under every failure: a row becomes uncached only with both its files gone; no other row and no other file is touched. |
| Cleaner.Cleaner.Delete | internal/cleaner/media.go:570-592 | Safe under every failure: a row goes only with both its files gone; no other row and no other file is touched. |
| Cleaner.Cleaner.PruneAttachment | internal/cleaner/media.go:334-380 | Drops the row exactly when its account is missing, or it is neither header or avatar of an account that is not suspended nor listed by its status. |
| Cleaner.Cleaner.PruneEmoji | internal/cleaner/emoji.go:284-316 | Drops the emoji exactly when no account and no status uses it and it is seven days old. |
| Cleaner.Cleaner.FixCacheState | internal/cleaner/media.go:382-432 | Acts exactly on rows whose account and status exist as far as they are named, and whose flag and files disagree; then neither flag nor both files are left. |
| Cleaner.Cleaner.UncacheAttachment | internal/cleaner/media.go:434-497 | Uncaches exactly cached media whose account (for headers and avatars), or else status, exists and was not fetched after the limit, the status not bookmarked either, as far as one is named. |
| Cleaner.Cleaner.UncacheEmoji | internal/cleaner/emoji.go:352-401 | Uncaches exactly cached emoji all of whose accounts and statuses were not fetched after the limit, and no status of which is bookmarked. |
| Cleaner.Cleaner.HandleBatch | internal/cleaner/media.go:155-167 | The inner loop acts as the sequence of its rows and counts them, although it works on rows read before the first of them was handled. |
| Cleaner.Cleaner.Sweep | internal/cleaner/media.go:127-171 | The paging loop terminates, and without an error handles exactly the planned rows of the stores it started from, although it changes the table it is paging over; under every failure it is safe and touches only selected rows and their files; a dry run changes nothing. |
| Cleaner.Cleaner.IsOrphaned | internal/cleaner/media.go:267-332 | A recognised file is orphaned exactly when there is no attachment with its media ID, or no emoji whose static URL has its account ID and media ID; other keys never are. |
| Cleaner.Cleaner.PruneOrphaned | internal/cleaner/media.go:93-122 | Removes exactly the orphaned files and returns their number, in any order of the walk; whatever fails, no row and no other file is touched. |
| Cleaner.Cleaner.UncacheRemoteMedia | internal/cleaner/media.go:175-217 | Terminates and handles exactly the batches older than a minute before the limit; whatever fails, it touches only cached remote rows older than that, and their files. |
| Cleaner.Cleaner.PruneUnusedMedia | internal/cleaner/emoji.go:189-233 | The pruning pass over either table; whatever fails, of emoji it touches only remote ones. |
| Cleaner.Cleaner.FixAllCacheStates | internal/cleaner/media.go:222-265 | The cache-state pass over either table; whatever fails, it touches only remote rows and their files. |
| Cleaner.Cleaner.All | internal/cleaner/media.go:42-49 | Four passes, each run although one before it failed; safe whatever fails. |
| CleanerTheorems.SweptIsActedOn | internal/cleaner/media.go:155-167 | Handling rows in sequence equals acting at once on the rows flagged beforehand, unless a fix takes a file of a later row. |
| CleanerTheorems.SweptActs | internal/cleaner/media.go:155-167 | Whatever rows share, the stores end with the actions on exactly the rows acted on. |
| CleanerTheorems.DryRunAgreesIff | internal/cleaner/media.go:249-261 | Dry and real runs act on the same set of rows if and only if no fixed row takes a file that a later row still has both of. |
| CleanerTheorems.MaxIDPassVisitsAll | internal/cleaner/media.go:136-168 | Every selected row is visited exactly once, by descending ID. |
| CleanerTheorems.UncacheVisits | internal/cleaner/media.go:185-214 | Which rows uncaching visits. |
| CleanerTheorems.UncacheFlags | internal/cleaner/media.go:434-497 | Which of them it acts on. |
| CleanerTheorems.PruneUnusedExactly | internal/cleaner/media.go:127-171 | Leaves exactly the rows in use, unchanged, removes exactly the files of the dropped rows, and counts those rows; also for emoji. |
| CleanerTheorems.UncacheRemoteExactly | internal/cleaner/media.go:175-217 | Uncaches exactly the visited rows that no recent account, recent status or bookmark protects, all of them cached, remote and old, so that local rows stay as they are; counts them; and visits all such rows if and only if no full batch ends inside a group of one time. |
| CleanerTheorems.DryRunCounts | internal/cleaner/cleaner.go:76-80 | A dry run changes nothing and counts what the real run from the same stores counts, for both tables and all row passes. |
| CleanerTheorems.DryRunCanDiffer | internal/cleaner/media.go:382-432 | Two rows over the same files, if there were such, for which the counts are 1 and 2. |
| CleanerTheorems.FixCacheStatesRestores | internal/cleaner/media.go:222-265 | From any stores, every resolvable remote row is afterwards cached exactly when both its files exist, if and only if no row the pass has fixed shares a file with one left cached; other rows are unchanged. |
| CleanerTheorems.DisjointIsRestored | internal/cleaner/media.go:222-265 | In particular when rows share no file, which can be told beforehand. |
| CleanerTheorems.FixCacheStatesIsIdempotent | internal/cleaner/media.go:222-265 | A second run acts on no row if and only if the same holds, and then changes nothing. |
| CleanerTheorems.SafeCreatesNothing | internal/cleaner/media.go:545-592 | Safe steps create no orphaned file and no uncached row with both files present, whatever failed. |
| CleanerTheorems.PruneOrphanedSparesAttachments | internal/cleaner/media.go:288-302 | No file of an attachment that has its row is ever taken for an orphan. |
| CleanerTheorems.PruneOrphanedSparesEmojis | internal/cleaner/media.go:304-328 | No file with the owner and ID of an existing emoji's static URL is either. |
| CleanerTheorems.SweptIsSafe | internal/cleaner/media.go:545-592 | The error-free passes are safe as well. |
| CleanerTheorems.AllLeavesStoresClean | internal/cleaner/media.go:42-49 | After four passes without an error no recognised file lacks its row, every attachment left is in use, and every remote one left with a resolvable status is cached if and only if both its files exist. |
| CleanerTheorems.AllSparesRecent | internal/cleaner/media.go:42-49 | What is in use and complete keeps its row, flag and files through all four passes, if it is local or not older than the given days and a minute. |
| CleanerTheorems.AllUncachesOld | internal/cleaner/media.go:42-49 | What is remote, older than that and unprotected is uncached, and its files are gone, if no full batch cuts a group of one time. |
| Schedule.FirstCleanup | internal/cleaner/cleaner.go:134-148 | Terminates with the least start + k * period that is not before now. |
| Budget.LargestThatFits | internal/cache/size.go:125-164 | A capacity is the largest number of entries whose cost fits the cache's share. |
| Budget.HandSetCapacity | internal/cache/size.go:126-130 | A negative ratio is the capacity, cut off to a whole number. |
| Budget.MemoryBound | internal/cache/size.go:125-164 | All caches full cost at most the target scaled by used over counted ratios, and at least that less one entry each. |
| Budget.RatiosSplit | internal/cache/size.go:167-215 | The ratios in use are the counted and the uncounted ones. |
| Budget.WithinTargetIff | internal/cache/size.go:125-215 | The caches, all full, stay within the target, whatever it is, if and only if no uncounted cache has a ratio. |
| Budget.ExcessIsUncounted | internal/cache/size.go:125-215 | How far they exceed it: by the uncounted part of the target, less at most one entry of each cache. |
| Budget.TargetCanBeExceeded | internal/config/defaults.go:143-203 | With the default ratios (68.8 counted, 7 not) and the default target the caches exceed it, whatever entries cost, as long as one of each fits into ten megabytes. |
| Content.ExtractContent | internal/ap/extract.go:614-640 | Yields the first non-empty text (an IRI counts) and the first non-empty language map, by position in the property, and nothing if there is none. |
| Content.NormalizeOutgoingContentProp | internal/ap/normalize.go:533-576 | The raw text is the first non-empty text entry and the raw map has the languages of the first language map; a key without such an entry is deleted. |
| Content.NormalizeIncomingContent | internal/ap/normalize.go:126-168 | The property holds nothing but the cleaned raw text and the cleaned raw languages with something left in them, in this order; without raw content it stays. |
| Content.IncomingForgets | internal/ap/normalize.go:165-167 | Where there is raw content, what the item had before makes no difference. |
| Content.TripExtracts | internal/ap/normalize.go:126-168 | What is extracted after sending and receiving is the cleaned first text and first language map. |
| Content.TripKeepsMeaningIff | internal/ap/normalize.go:126-168 | Sending and receiving keeps the sanitized meaning for every sanitizer if and only if text precedes IRIs and no empty language map shadows a filled one. |
| Content.PlainIsSendable | internal/ap/normalize.go:533-576 | In particular for content without IRI entries and empty language maps. |
| Content.SecondTripIsIdentity | internal/ap/normalize.go:126-168 | A second trip changes neither the content extracted nor the property, for an idempotent sanitizer; a property with nothing left in it is not sent at all. |
| ListNormalization.Object.SetName | internal/ap/normalize.go:324-349 | Only a raw string replaces the name, and nothing else changes. |
| ListNormalization.Object.SetValue | internal/ap/normalize.go:356-379 | Only a raw string replaces the value, and nothing else changes. |
| ListNormalization.Normalize | internal/ap/normalize.go:177-228 | The lockstep walk stays in bounds, rewrites objects as the raw entries at their positions say (also where one object occurs twice), and changes nothing on any mismatch. |
| ListNormalization.TakesOwnEntry | internal/ap/normalize.go:264-317 | Entry i takes its name, and for fields its value, from raw entry i and from no other. |
| ListNormalization.AppliedTwice | internal/ap/normalize.go:387-436 | Normalizing again from the same raw list changes nothing. |
| Extract.PicksAreUnique | internal/ap/extract.go:769-775 | The specification of the three extractions allows one result only. |
| Extract.ExtractHashtags | internal/ap/extract.go:724-779 | Exactly the first convertible entry of each key, in the order of the entries; bad entries are passed over. |
| Extract.ExtractOrFail | internal/ap/extract.go:813-850 | The same for emoji and mentions, failing if and only if some entry does not convert. |
| Extract.CopyOver | internal/ap/extract.go:121-123 | The copy moves elements onto the front of the slice and leaves those from the removed one on in place. |
| Extract.ExtractMatching | internal/ap/extract.go:97-127 | The split is right if and only if nothing but the last element matches; then just that one is taken out, and otherwise what is left still holds a matching element. |
| Extract.SplitVerdict | internal/ap/extract.go:97-127 | Why: what the loop has found when it ends decides both. |

## Left out

- Cache sizes, least-recently-used order, copies made on load (the copy function of the Instance cache
  returns its argument), cached errors, locks and concurrent callers: steps are sequential and any
  record or list may be evicted at any time.
- Indices over fields that no hook and no list uses (URLs, inboxes, keys, names, threads); what replacing a
  record under one of them evicts is covered by eviction at any time.
- Loads of several records, the plain Get and Put of the caches, and the caches without a hook that no other
  hook reaches.
- Each struct cache as its own object: they are one set of records, split by model, and the ID lists one map.
- Bulk deletes in runs: they can break lists and visibility (`Exactness.DeleteManyIff` and
  `Exactness.DeleteManyVisibilityIff` have the exact conditions), and invalidate by keys that the vendored
  library clears by half. Deletes of one follow, request or block through URI or account pair are the same
  load, delete, invalidate under another key.
- Expiry of mutes, and what real visibility reads beyond the item and the relation (domain blocks, mentions,
  boosts, the settings of the owner).
- Runs.StepKeeps: a store or delete belongs to a run if it spares the lists still cached after it, as
  `Exactness.StoreIff` shows it must.
- Cascade.AfterUnfold: for the documented contract of invalidation; `Cascade.ClearsUnfold` is for both.
- Caches.Caches.TakeOutKey: counts the records of a key without those displaced from it in the library.
- Caches.Caches.LoadOne: does not model errors that are cached under the key they were loaded for.
- Caches.Caches.Store: a record displaced from a unique key leaves the cache, where the library keeps it under
  its other keys; eviction at any time covers that it is gone, not that it stays.
- VendoredDeletion.InsertKeepsUniqueKeys: about the model's caches, where a displaced record goes altogether;
  `StructrIndex.Index.Append` is what the library does with one index.
- VendoredDeletion.UniqueIndexHoldsOne: likewise; in the library `StructrIndex.Index.Append` is why it holds.
- Exactness.NewLocalAccountStalesList: a follow of an account that has no row yet, which only the database
  layer by itself allows.
- Batches.OrderedIsSorted: the query by creation time leaves the order of rows of one time open, and this one
  fixes it; `Batches.TiesDoNotMatter` says that no cut depends on it.
- CleanerTheorems.DryRunAgreesIff: decides whether dry and real run act on the same rows, not whether they
  report the same number, which other rows may add up to where files are shared.
- CleanerTheorems.DryRunCanDiffer: its rows share files, which no attachments do.
- CleanerTheorems.AllLeavesStoresClean: for attachments with their own ID in their paths and storage without
  further files of an existing row.
- Cleaner.Cleaner.Delete: does not clear the deleted media's ID from its account and status rows; no other
  row's use depends on it.
- Emoji.FixBroken, whose dry-run guard is the wrong way round (internal/cleaner/emoji.go:411), and with it
  Emoji.All; the clean-up of empty directories in storage; logging.
- The paging loops of the row passes for media and emoji are one method over a description of the pass: six
  loops in the source with the same steps. The queries for an emoji's accounts and statuses are sets.
- Rounding of floating-point ratios and the estimated sizes of the models; capacities set by hand through a
  negative ratio are in no bound.
- HTML sanitizing and minifying are any functions; the JSON text on the wire is the value itself.
- Normalization of summaries, single names and actors, and outgoing attachments.
- Unicode normalization of hashtags and the conversion of a single tag: a tag arrives as convertible with a
  key, not convertible, or of another type.
- The splits of statuses and poll options, which are the same loop as that of accounts.
