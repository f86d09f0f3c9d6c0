# Verified model of Nebularr's dub pipeline and its supporting protocols

Nebularr keeps a PostgreSQL warehouse of Sonarr and Radarr libraries and joins it with MyAnimeList dub lists.
This project models the parts of it that carry state over many calls, and proves what their documentation promises
about whole runs, not single calls.

`dafny verify dfyconfig.toml` checks everything.

* **The dub pipeline.** `MalTables` describes the tables on values, `MalStore` has the repository statements as methods
  over mutable tables, `MalIngest` one ingest run, `DubRuns` the theorems over every history of events, `Backlog` the
  import driver. `TitleIndex`, `LinkTables` and `Matcher` are the matcher,
  `MatcherRuns` and `MatcherChains` its runs one after another; `TagSync` is the tag reconciler;
  `Titles` merges title lists; `Pipeline` connects accepted lists to tags, end to end.
* **Small concurrent protocols**, as state machines over their atomic steps with arbitrary interleavings:
  `WebhookDrain`, `SecretFile`, `EventBus`.
* **Authentication.** `LoginThrottle`, `Base64Url` (section 5 of RFC 4648), `SessionToken`, `Forwarded`.
* **Fast forms and round trips.** `Export` (chunked CSV), `Coverage` (the English-audio view), `LibraryUrl` (page
  state and address).
* `Prelude` and `Text` hold small shared facts.

Code that changes things step by step is a method or a class here, proved against a function on values; the theorems
are about those functions. Interleaved protocols are functions from a state and an action to a state, with the
statements made about every enabled sequence of actions.

Seven parts of the code turn out to promise more than they keep. Each is stated with the exact condition under which it
keeps its promise, and with inputs on which it does not:

* The matcher is not idempotent. A run writes the ids of linked items back, and the next run reads them: it leaves the
  tables alone exactly when every newly learnt id leads nowhere new and no anime with a hand-listed link holds a
  title-year link (`MatcherRuns.StableIff`). Series links settle with the second run
  (`MatcherRuns.SeriesSettleAfterTwo`), everything with the fourth (`MatcherRuns.SettlesAfterFour`), and no earlier in
  general (`MatcherChains.FourRunsNeeded`). A run fails, and is rolled back, exactly when two keys
  of a dubbed anime end up at items that carry different ids of a site (`MatcherRuns.SucceedsIff`); then all later runs
  fail as well (`MatcherRuns.FailsForGood`), and two spellings of one imdb id are enough
  (`MatcherRuns.SpellingsFail`). Automatic links are forgotten; a manual-method row can outlive the listing that made
  it (`LinkTables.StaleManualRowStays`, `LinkTables.HistoryForgottenIff`).
* A backlog import can end with ids pending although fewer than two batches of ids arrived, when they arrive behind
  batches that were not full (`Backlog.LateArrivalsOutlast`), or when the front batch keeps failing
  (`Backlog.FailingFrontBlocks`). `Backlog.DrainsIff` says exactly when it drains.
* The comment in `_iter_query_chunks` says that a source-id tiebreaker makes offset pagination stable. Rows that tie on
  it (a movie or an episode joined with two file rows) can be repeated and lost, exactly when a tie straddles a page
  boundary (`Export.StableExportIff`, `Export.TiesCanRepeat`).
* The login limiter lets more than `max` failures of a key count, exactly when an attempt checked earlier registers its
  failure while the key is locked (`LoginThrottle.LimitKeptIff`, `LoginThrottle.TwoAtOnce`). With `c` passwords being
  verified at once it is `max + c - 1` failures at most (`LoginThrottle.CountBounded`), and that many per lockout
  (`LoginThrottle.FailuresAreSpread`).
* The coverage view still joins files by the one episode their row names. It differs from the join of all other queries
  exactly on series all of whose downloads are English, some through a file recorded under another episode; it calls
  them partial (`Coverage.ViewLosesIff`, `Coverage.StatusesAgreeIff`).
* The library page ignores the address it last wrote itself, even after a link has moved it elsewhere, so going back
  can leave address and state apart (`LibraryUrl.LinkShowsItsState`, `LibraryUrl.BackIsIgnored`).
* A first process that dies between creating a key file and writing it leaves an empty file that no later call repairs:
  from then on the routine returns no key (`SecretFile.CrashedCreatorBlocks`). An empty file without a writer is the only
  such state (`SecretFile.SoloReturnsKeyIff`, `SecretFile.NobodyGetsAKeyIff`), and agreement is not affected.

Hashes are taken as injective where a statement says so. The lower-casing of the language, MACs, digests and the
trusted-network lookup are arbitrary functions.

## Model

| member | source | states |
|---|---|---|
| MalTables.Parse | src/arrsync/mal/dub_sources.py:38-50 | Refuses exactly a payload that is no object, has no dubbed array, or holds a non-integer in either array; the dubbed ids are those of the dubbed array, the partial ones those of the partial array that are not dubbed |
| MalTables.SmallestElements | src/arrsync/mal/repository.py:827-844 | A limited, ordered id query returns as many ids as fit, all of them when they fit |
| MalTables.SmallestAre | src/arrsync/mal/repository.py:827-844 | It returns the ids ascending, and every id left out is larger than every one returned |
| MalStore.Store.LatestDubListSha | src/arrsync/mal/repository.py:209-223 | The search from the highest id down finds the hash of the newest row of the source that succeeded and has one, and nothing when no row has |
| MalTables.LatestShaIs | src/arrsync/mal/repository.py:209-223 | The hash kept of a source is that of its newest successful row with a hash; there is none if and only if no row is one |
| MalStore.Store.InsertDubListFetch | src/arrsync/mal/repository.py:662-695 | One more log row under the next serial id; nothing else changes |
| MalStore.Store.UpsertDubSourceSnapshot | src/arrsync/mal/repository.py:545-622 | Exactly the listed ids are members of the source afterwards, dubbed or partial as the list says, seen now and with reference to this fetch; unseen ids get a row that is not dubbed, pending and never looked up; old snapshot items stay, other sources are untouched, and the removed rows are counted |
| MalStore.PassesRecord | src/arrsync/mal/repository.py:558-621 | The dubbed pass, the partial pass and the final delete together amount to replacing the source's rows by the list |
| MalStore.Store.RecomputeDubUnion | src/arrsync/mal/repository.py:625-659 | The conditional update gives every row the flag, status and number of sources that the membership rows of the enabled sources say, leaves its lookup columns alone, and counts exactly the rows that differed |
| MalStore.Store.PruneDubListFetches | src/arrsync/mal/repository.py:177-206 | Numbering rows from the newest down keeps exactly the newest rows of each source, at least one each, with exactly their items; membership rows stay, without a reference to a row that is gone |
| MalTables.PrunedFetchesAre | src/arrsync/mal/repository.py:177-206 | A row of the log is kept if and only if at most the kept number of rows of its source, itself included, are not older |
| MalStore.Store.ClearSynchronizedData | src/arrsync/mal/repository.py:277-288 | Everything is empty and the serial ids restart |
| MalStore.Store.UpsertAnimeFromMalApi | src/arrsync/mal/repository.py:698-761 | A success, a not-found and an error set their own status; the time is set, the dub columns of an existing row stay, and a new row is not dubbed |
| MalStore.Store.ListAnimeNeedingMalFetch | src/arrsync/mal/repository.py:827-844 | The least ids, as many as the limit, of those whose row is dubbed and pending, failed, without a lookup time, or more than fourteen days old |
| MalTables.NeedingLookupAre | src/arrsync/mal/repository.py:827-853 | An id needs a lookup if and only if its row exists, is dubbed, and is pending or failed, has no lookup time, or a time more than 14 * 24 * 3600 seconds before |
| DubRuns.ReachableConsistent | src/arrsync/mal/repository.py:545-659 | In every reachable state flag, status and count of an anime say the same thing, every membership row has its anime, and every reference to the fetch log resolves |
| DubRuns.MembershipIsLastAccepted | src/arrsync/mal/ingest_service.py:115-168 | Over every run of fetches, failures, prunes, resets, unions and lookups, a source's membership rows are the parse of its last accepted body and the kept hash is that body's |
| DubRuns.HashSkipIsSound | src/arrsync/mal/ingest_service.py:135-168 | Skipping on an equal hash leaves exactly the anime and membership rows that recording every accepted list again would leave |
| DubRuns.PruneKeepsLatestSha | src/arrsync/mal/repository.py:177-206 | Pruning leaves a source's newest successful hash alone if and only if there is none or its row is among the newest kept ones |
| DubRuns.UnionForgets | src/arrsync/mal/repository.py:625-659 | Disabling sources and enabling them again restores every column; a repeated union changes no row |
| DubRuns.FlagsFollowLists | src/arrsync/mal/repository.py:625-659 | After any run and a union, the dub columns follow from the last accepted list of each enabled source alone |
| DubRuns.LookupsFollow | src/arrsync/mal/repository.py:698-761 | After any history the lookup columns of an anime are those of its last lookup since the tables were last emptied, and those of a new row if there was none |
| DubRuns.WaitingIff | src/arrsync/mal/repository.py:827-853 | After any history and a union an id needs a lookup if and only if an enabled source's last accepted list names it and it was never looked up since the tables were last emptied, its last lookup failed, or more than fourteen days have passed since |
| DubRuns.FirstNamedWaits | src/arrsync/mal/repository.py:558-580 | An id without a row that an accepted list of an enabled source names needs a lookup after the union |
| MalIngest.BatchLimit | src/arrsync/mal/ingest_service.py:29-32 | The batch is within 1..500 and is the requested or configured one when that is |
| MalIngest.FailedOfAll | src/arrsync/mal/ingest_service.py:116-129 | As many sources fail as there are exactly when every single one is rejected |
| MalIngest.FetchOne | src/arrsync/mal/ingest_service.py:116-168 | One source: a bad answer and an unchanged list leave the tables alone, anything else is one event of the history |
| MalIngest.FetchAll | src/arrsync/mal/ingest_service.py:113-171 | The loop applies one event per source, reports the rejected ones in order, and reports unchanged lists exactly when there are sources and each has the hash on record |
| MalIngest.LookUpAll | src/arrsync/mal/ingest_service.py:193-217 | One stored outcome per pending id, in order |
| MalIngest.Run | src/arrsync/mal/ingest_service.py:78-251 | The tables after a whole run, and when it ends early: all sources failed (nothing changed), or a client id is missing while something is pending (union applied, nothing looked up) |
| MalIngest.AfterUnionIsARun | src/arrsync/mal/ingest_service.py:113-180 | The source loop and the union of an ingest run from a reachable state continue its history |
| MalIngest.IngestRunIsARun | src/arrsync/mal/ingest_service.py:113-221 | A whole ingest run, its lookups included, continues the history, so every theorem about histories holds after any number of runs |
| Backlog.RunBacklogCycles | src/arrsync/routers/mal_routes.py:172-219 | The loop with its three exits computes the driver's outcome, each cycle making at most a batch of calls |
| Backlog.RunIngest | src/arrsync/mal/ingest_service.py:175-217 | A cycle takes the least pending ids and keeps those whose lookup failed |
| Backlog.PlanIs | src/arrsync/routers/mal_routes.py:288-302 | The ceiling division plans one cycle per batch and two more, at most 500 |
| Backlog.BatchesCover | src/arrsync/routers/mal_routes.py:288-302 | The planned batches cover the pending ids and one batch fewer would not |
| Backlog.IngestRunIsACycle | src/arrsync/mal/ingest_service.py:113-217 | An ingest run on the tables is one cycle of the driver: whatever was counted before, the recount is what one step makes of it |
| Backlog.ImportIsDriven | src/arrsync/routers/mal_routes.py:185-219 | Along a whole import on the tables, whatever others do to them between the runs, every count is what the driver's cycles make of the first one |
| Backlog.ImportDrives | src/arrsync/routers/mal_routes.py:185-219 | An import on the tables makes as many runs as the driver makes cycles and ends with what the driver ends with |
| Backlog.ImportDrainsIff | src/arrsync/routers/mal_routes.py:185-219 | An import on the tables leaves nothing that needs a lookup if and only if nothing did or some planned run clears the backlog and none before it finds nothing to list |
| Backlog.Conservation | src/arrsync/routers/mal_routes.py:185-219 | After every number of cycles, resolved, departed and still pending ids add up to the initial and the arrived ones |
| Backlog.DriveFollows | src/arrsync/routers/mal_routes.py:185-219 | Whatever exit the driver takes, it ends in the state its cycles lead to |
| Backlog.LoadIsLargest | src/arrsync/routers/mal_routes.py:185-219 | What a cycle finds to list is the largest, over all earlier cycles, of what stood behind that cycle's predecessor and joined since, less the batches in between |
| Backlog.ClearsIff | src/arrsync/routers/mal_routes.py:185-219 | A cycle leaves nothing pending if and only if nothing fails or comes late in it and every such inflow fits the batches up to it |
| Backlog.DrainsIff | src/arrsync/routers/mal_routes.py:185-219 | Whatever arrives, departs, fails or comes late: the driver drains if and only if nothing was pending or some planned cycle clears the backlog and no cycle before it finds nothing to list |
| Backlog.DrainsIffNoneDepart | src/arrsync/routers/mal_routes.py:185-219 | While nothing departs, it drains if and only if nothing was pending or some planned cycle clears the backlog |
| Backlog.ImportAllDrainsIff | src/arrsync/routers/mal_routes.py:288-302 | The same for an import of everything, with one cycle per batch and two more, at most 500 |
| Backlog.EmptyOrFull | src/arrsync/routers/mal_routes.py:185-219 | Without failures and without ids behind short batches, the driver ends empty or has resolved a full batch in every cycle |
| Backlog.ImportAllDrains | src/arrsync/routers/mal_routes.py:288-302 | A bound to read off: it drains when the plan is not cut off at 500, at most two batches of ids become pending on the way, no lookup fails and none comes behind a short batch |
| Backlog.NoRoomNoDrain | src/arrsync/routers/mal_routes.py:185-219 | The room is exact: ids arriving early beyond it leave precisely the excess pending |
| Backlog.BurstDrainsIff | src/arrsync/routers/mal_routes.py:185-219 | For ids that all arrive early, the driver drains if and only if its cycles have room for them |
| Backlog.QuietImport | src/arrsync/routers/mal_routes.py:288-302 | Undisturbed, up to 500 batches drain, in exactly one cycle per batch |
| Backlog.FailingFrontBlocks | src/arrsync/mal/repository.py:827-844 | Failing lookups among the least ids use up every cycle and nothing is resolved |
| Backlog.LateArrivalsOutlast | src/arrsync/routers/mal_routes.py:288-302 | Ids arriving behind short batches outlast the plan although fewer than two batches arrive |
| Text.StripTwice | src/arrsync/mal/titles.py:65-92 | Stripping again changes nothing |
| Text.StripIs | src/arrsync/mal/titles.py:65-92 | Stripping takes white space off both ends and nothing else |
| Text.TrimIs | src/arrsync/mal/repository.py:323-441 | Trimming takes spaces off both ends and nothing else |
| Text.TrimmedIdsCompare | src/arrsync/mal/repository.py:404-441 | Outer spaces make no difference to either comparison form of an external id |
| Text.WithoutTTIs | src/arrsync/mal/repository.py:404-441 | Every "tt" goes, from the left and without looking again at what has joined up; every other character stays |
| TitleIndex.KeyCharsAre | src/arrsync/mal/matcher_service.py:19-20 | Of a lower-cased title exactly the characters a to z and 0 to 9 stay in its key, in order |
| TitleIndex.RawTitlesAre | src/arrsync/mal/matcher_service.py:23-39 | The main title comes first, then the others, each stripped; blanks and nulls are dropped |
| TitleIndex.KeysAre | src/arrsync/mal/matcher_service.py:23-39 | The keys are pairwise different and are exactly the non-empty normalized titles |
| TitleIndex.KeysInOrder | src/arrsync/mal/matcher_service.py:23-39 | The keys come in the order in which their titles first appear |
| TitleIndex.NormalizedTitleVariants | src/arrsync/mal/matcher_service.py:23-39 | The two loops with their seen-set compute the keys in order of first appearance |
| TitleIndex.BuildIndex | src/arrsync/mal/matcher_service.py:93-103 | The dictionary holds, for every key, the candidates of exactly the rows with that key |
| TitleIndex.MatchAt | src/arrsync/mal/matcher_service.py:117-134 | The year filter and the uniqueness check on one key's candidates agree with the set of rows |
| TitleIndex.PickedIs | src/arrsync/mal/matcher_service.py:105-137 | The item picked is the only row that counts for some key, where no earlier key has an only row; a row counts when its title has the key and its year is the wanted one if any row of that key has it |
| TitleIndex.FirstMatch | src/arrsync/mal/matcher_service.py:105-137 | The loop over an index finds what brute force over the set of rows picks, so the order of rows does not matter |
| LinkTables.IdMatchIs | src/arrsync/mal/repository.py:323-441 | An id leads to the least source id of a live row of the instance whose own id is not blank and the same: equal after trimming for tvdb and tmdb, after removing "tt", trimming and lower-casing for imdb; nowhere if and only if there is no such row, no id, or no dub |
| LinkTables.IdLayerIs | src/arrsync/mal/repository.py:323-441 | One id layer links every key of its kind exactly where the id of the anime leads first, by that site |
| LinkTables.LiveRowsAre | src/arrsync/mal/matcher_service.py:72-91 | The rows that titles are compared with are those of the live items of the instance, with their own title and year |
| LinkTables.TitleLayerIs | src/arrsync/mal/matcher_service.py:54-168 | The title stage links exactly the dubbed anime with a title and without any link, movies in the enabled Radarr instances and the others in the enabled Sonarr instances, to the item that title and year pick |
| LinkTables.RebuiltAt | src/arrsync/mal/matcher_service.py:265-274 | Every key ends up with its final link: listed by hand, else by id (movies imdb over tmdb), else a surviving manual-method row, else by title and year for an anime with no link at that stage |
| LinkTables.AutomaticHistoryIsIrrelevant | src/arrsync/mal/matcher_service.py:265-274 | Tables that agree on the manual-method rows of anime that are not undubbed are rebuilt to the same table |
| LinkTables.UndubbedKeepManualOnly | src/arrsync/mal/repository.py:265-321 | An undubbed anime keeps exactly the links listed by hand |
| LinkTables.StaleManualRowStays | src/arrsync/mal/repository.py:254-321 | A key that is not listed holds a manual-method link after a run if and only if it did before, its anime is not undubbed, and no id leads anywhere |
| LinkTables.HistoryForgottenIff | src/arrsync/mal/matcher_service.py:265-274 | A run gives what it would give on an empty table if and only if no surviving row keeps its own key or keeps title and year from linking another key of its anime |
| Matcher.Session.DeleteLinksForUndubbed | src/arrsync/mal/repository.py:265-274 | Links of known, undubbed anime go; all others stay |
| Matcher.Session.ClearAutoWarehouseLinks | src/arrsync/mal/repository.py:254-262 | Only manual-method rows stay |
| Matcher.Session.FindById | src/arrsync/mal/repository.py:323-441 | The least source id of a live row of the instance whose own id is not blank and the dubbed anime's id of the site: equal after trimming for tvdb and tmdb, after removing "tt", trimming and lower-casing for imdb; none if and only if there is no such row |
| Matcher.Session.InsertIdLinks | src/arrsync/mal/repository.py:324-441 | An id layer writes one link per matching key over what was there, and counts them |
| Matcher.Session.MatchOne | src/arrsync/mal/matcher_service.py:105-137 | One anime against the index of one instance gives its title-year match |
| Matcher.Session.MatchInstance | src/arrsync/mal/matcher_service.py:93-168 | One instance: the links and the count for all targets |
| Matcher.Session.MatchKind | src/arrsync/mal/matcher_service.py:81-168 | All instances of one kind, whatever their order |
| Matcher.Session.ApplyTitleYear | src/arrsync/mal/matcher_service.py:56-255 | For every order of anime rows, instances and warehouse rows the same links are written, and the count is the number of new link keys |
| Matcher.MatchesAddUp | src/arrsync/mal/matcher_service.py:56-255 | Title-year links of disjoint instances or anime add up in content and in number |
| Matcher.TitleLayerParts | src/arrsync/mal/matcher_service.py:56-255 | Series and movies together are the whole stage, without overlap |
| Matcher.Session.UpsertManualWarehouseLinks | src/arrsync/mal/repository.py:291-321 | Every hand-listed link is in the table, over whatever was there |
| Matcher.Session.BackfillExternalIds | src/arrsync/mal/repository.py:444-527 | The ids of linked items are written back; the statement fails exactly when linked items disagree about an id |
| Matcher.LinkedIdsIs | src/arrsync/mal/repository.py:444-527 | An id is written back to a dubbed anime only if a live item behind one of its links of the right kind carries it |
| Matcher.Session.RebuildLinks | src/arrsync/mal/matcher_service.py:265-274 | The deletes and layers in order give the rebuilt table |
| Matcher.Session.Run | src/arrsync/mal/matcher_service.py:257-288 | A run is one transaction: rebuilt links and written-back ids, or nothing at all when linked items disagree |
| Matcher.FedBackAllAt | src/arrsync/mal/repository.py:444-527 | An anime with a linked item that carries an id gets an id of such an item |
| Matcher.LinksBecomeIdMatches | src/arrsync/mal/repository.py:324-527 | After a run, a link to a live item with an id is an id match of the next run, at that item or a smaller source id with the same id |
| MatcherRuns.RunSession | src/arrsync/mal/matcher_service.py:257-288 | A run takes the pair of links and external ids to the next pair, or leaves it when it fails |
| MatcherRuns.DubbedLinkAfter | src/arrsync/mal/matcher_service.py:265-274 | The link of every key of a dubbed anime after a run, in terms of the pair before |
| MatcherRuns.FedBack | src/arrsync/mal/repository.py:444-527 | After a successful run the anime's id of a site is the one all its linked items carry, or the old one if none carries any |
| MatcherRuns.SecondRunAt | src/arrsync/mal/matcher_service.py:265-275 | What a second run, which reads the ids the first has written back, does to each key |
| MatcherRuns.StableIff | src/arrsync/mal/matcher_service.py:265-275 | A second run succeeds and changes nothing if and only if no anime with a hand-listed link holds a title-year link and every id the first run has learnt is carried only where the anime is listed by hand or, for a tmdb id, found by imdb |
| MatcherRuns.ClassStays | src/arrsync/mal/matcher_service.py:265-275 | Over two runs an external id changes the way it compares only if another site's id of the same kind has changed in the first |
| MatcherRuns.SeriesSettleAfterTwo | src/arrsync/mal/matcher_service.py:265-275 | Series links and tvdb ids of all runs from the second on are those of the second |
| MatcherRuns.SettlesAfterFour | src/arrsync/mal/matcher_service.py:265-275 | From any tables, four runs leave links and external ids that every later run leaves alone |
| MatcherRuns.FailsForGood | src/arrsync/mal/matcher_service.py:265-288 | A failing run leaves everything as it was, so every later run fails too |
| MatcherRuns.SucceedsIff | src/arrsync/mal/repository.py:444-527 | A run succeeds if and only if no two keys of a dubbed anime end up, by whatever layer, at items that carry different ids of a site |
| MatcherRuns.SpellingsFail | src/arrsync/mal/repository.py:404-527 | Two imdb matches of an anime that spell the id differently make every run fail |
| MatcherChains.ThirdRunStillLinks | src/arrsync/mal/matcher_service.py:265-275 | Three movies on which the second run leaves a movie unlinked and the third links it |
| MatcherChains.FourRunsNeeded | src/arrsync/mal/matcher_service.py:265-275 | Four runs can be needed also from a state that a run from empty tables has left: there the fourth run still adds a link |
| MatcherChains.RelayReached | src/arrsync/mal/matcher_service.py:265-275 | That state is what a run from empty tables leaves while the anime is listed by hand and not dubbed yet |
| MatcherChains.TwoSpellingsFail | src/arrsync/mal/repository.py:404-527 | An imdb id spelt with and without its prefix in two instances: no run ever succeeds |
| TagSync.TagDiff | src/arrsync/mal/tag_sync_service.py:66-83 | The loop's two lists, in order and with repetitions |
| TagSync.DiffIds | src/arrsync/mal/tag_sync_service.py:66-83 | An id is to be added or removed if and only if some live row with that id needs it |
| TagSync.DiffDisjoint | src/arrsync/mal/tag_sync_service.py:66-83 | Only wanted ids are added and only unwanted ones removed, also with duplicate or missing ids |
| TagSync.UpdateTags | src/arrsync/services/arr_client.py:387-416 | Editing in requests of at most 100 ids reaches exactly the ids before the first refused request; no request is refused if and only if all ids are reached |
| TagSync.PartialPassIsSafe | src/arrsync/mal/tag_sync_service.py:157-189 | A pass cut short anywhere touches no other tag and makes no correct row wrong |
| TagSync.PassConverges | src/arrsync/mal/tag_sync_service.py:66-83 | A full pass leaves the tag on exactly the live rows whose id is wanted, and no other tag changed |
| TagSync.EmptyDiffIff | src/arrsync/mal/tag_sync_service.py:66-83 | The diff is empty if and only if the rows have converged |
| TagSync.NextPassRepairs | src/arrsync/mal/tag_sync_service.py:157-189 | Whatever part of a pass got through, the next full one ends with the tags a full first pass would have left |
| TagSync.LinkTargets | src/arrsync/mal/tag_sync_service.py:41-64 | The targets per instance are the linked items of dubbed anime, whatever the row order |
| TagSync.TakeTurn | src/arrsync/mal/tag_sync_service.py:117-189 | One instance: what its rows become, how many errors are reported, and what is counted: a list in full if none of its requests was refused, else nothing and one error |
| TagSync.RunKind | src/arrsync/mal/tag_sync_service.py:112-192 | Every instance of a kind has its own turn, unaffected by the failures of others |
| TagSync.Run | src/arrsync/mal/tag_sync_service.py:85-195 | The whole run; it fails if and only if something went wrong and nothing was changed anywhere |
| TagSync.CleanTurnConverges | src/arrsync/mal/tag_sync_service.py:157-189 | A turn without errors converges, whatever an earlier failing turn had done |
| Pipeline.LinksAfterAt | src/arrsync/mal/matcher_service.py:261-287 | After a matcher run every key has its final link, or its old one if linked items disagree and the run is rolled back |
| Pipeline.WantedIff | src/arrsync/mal/tag_sync_service.py:41-64 | An item is wanted if and only if some anime named by an enabled source's last accepted list is linked to it: by its final link if the matcher run succeeds, by its old one if linked items disagree and it fails |
| Pipeline.TagsFollowLists | src/arrsync/mal/tag_sync_service.py:85-195 | After any history, a union, a matcher run that may fail and a clean tag turn, a live item carries the tag exactly when such an anime exists |
| Titles.MergeAdditionalTitleLists | src/arrsync/mal/titles.py:65-92 | The loops with their seen-set compute the merge |
| Titles.MergeIsFirstSeen | src/arrsync/mal/titles.py:65-92 | The merge is exactly the first eligible title of each spelling over both lists, in order |
| Titles.MergeIsClean | src/arrsync/mal/titles.py:65-92 | No blanks, no duplicates whatever the case, never the primary title, and the existing part comes first |
| Titles.MergeAgain | src/arrsync/mal/titles.py:65-92 | Merging the same titles into the result changes nothing, for every existing and incoming list |
| WebhookDrain.WakeupAlwaysSet | src/arrsync/database_lifecycle.py:198-224 | At every await a non-empty pending set implies a set event |
| WebhookDrain.QuietDrainerWaits | src/arrsync/database_lifecycle.py:198-224 | With nothing requested and the event clear the drainer only waits: it starts nothing, sleeps on nothing |
| WebhookDrain.StopsSoon | src/arrsync/database_lifecycle.py:198-224 | Once shutdown is signalled the drainer starts no source, makes at most two more moves, one if it is not waiting, and has a move to make until it has stopped |
| WebhookDrain.NeverLost | src/arrsync/database_lifecycle.py:198-224 | Along every interleaving a requested source has been started since, is still owed, or shutdown was signalled |
| WebhookDrain.StartedSoon | src/arrsync/database_lifecycle.py:198-224 | Without a shutdown an owed source is started within a bounded number of drain steps, whatever fails or is requested meanwhile |
| WebhookDrain.DrainStepEnabled | src/arrsync/database_lifecycle.py:198-224 | While something is owed the drainer always has a step to take |
| WebhookDrain.StartsNeverOutnumberRequests | src/arrsync/database_lifecycle.py:198-224 | Requests coalesce: starts of a source plus what is still owed never exceed its requests |
| WebhookDrain.RequestIsServed | src/arrsync/database_lifecycle.py:198-224 | From the start of the program on, a request made at any moment is answered by a start of its source within 2n + 3 drain steps for n sources, unless shutdown is signalled |
| WebhookDrain.RequestIsNotStuck | src/arrsync/database_lifecycle.py:198-224 | In every state reachable from the start in which a source is owed, a drain step is enabled |
| SecretFile.AllCallersAgree | src/arrsync/runtime_secrets.py:28-59 | In every interleaving of calls, refusals and crashes from a first boot, all keys handed out are one key, the one in the file |
| SecretFile.AtMostOneWrite | src/arrsync/runtime_secrets.py:35-59 | At most one write ever happens, and none once the right to write is gone |
| SecretFile.WriteSettles | src/arrsync/runtime_secrets.py:35-59 | A write uses up the right to write, and nothing gives it back |
| SecretFile.WriterDecides | src/arrsync/runtime_secrets.py:35-59 | A writer leaves its key in the file and returns it; if it is refused or dies the file stays empty |
| SecretFile.LoserGetsTheKey | src/arrsync/runtime_secrets.py:28-59 | A caller that has lost the race for the file returns the key in it once that is written; one that is refused returns none |
| SecretFile.EmptyFileStays | src/arrsync/runtime_secrets.py:28-59 | Once the file is empty and nobody is about to write it, it stays empty and no call ever returns a key |
| SecretFile.CrashedCreatorBlocks | src/arrsync/runtime_secrets.py:35-59 | A first creator that dies between creating and writing the file leaves every later call without a key, whatever happens |
| SecretFile.SoloReturnsKeyIff | src/arrsync/runtime_secrets.py:28-59 | While nobody is writing, a new call that runs alone with nothing refused returns a key if and only if the file is not an empty one; it is the file's key, or its own if there is no file |
| SecretFile.NobodyGetsAKeyIff | src/arrsync/runtime_secrets.py:28-59 | In no continuation does anybody get a key if and only if the file is empty and nobody is about to write it |
| SecretFile.KeyStays | src/arrsync/runtime_secrets.py:28-59 | Once written, the key never changes and every later call returns it |
| SecretFile.SavedUrlIsReadable | src/arrsync/runtime_database_url.py:19-74 | A URL saved by any caller can be read back for good; no race strands it |
| SecretFile.SaveThenRead | src/arrsync/runtime_database_url.py:51-74 | Saving and reading return the stripped text |
| SecretFile.ReadUrlIff | src/arrsync/runtime_database_url.py:19-48 | A URL reads back if and only if there is one, the key file holds the key it was encrypted with, and its stripped text is not blank |
| SecretFile.SessionKeys.SigningKey | src/arrsync/runtime_secrets.py:62-82 | Cached key first, else the file's key (then cached), else the one ephemeral key |
| SecretFile.CachedForGood | src/arrsync/runtime_secrets.py:62-82 | Once cached, every later call in the process returns that key |
| SecretFile.ChangesAtMostOnce | src/arrsync/runtime_secrets.py:62-82 | Over any series of calls a process signs with one ephemeral key until the file yields one, and with that ever after |
| EventBus.Delivery | src/arrsync/events.py:37-72 | In every interleaving a subscriber's consumed and queued events are, in order, all events dispatched since it joined except the missed ones, and its queue respects the bound |
| EventBus.MissedIffFull | src/arrsync/events.py:53-61 | After any run, a subscriber that had joined by a dispatch has missed it if and only if there is a bound and its queue held as many events as that before the dispatch |
| EventBus.ThereIff | src/arrsync/events.py:63-72 | A subscriber has a queue after a run if and only if it came, or was there, and has not gone since |
| EventBus.EveryNumberIsADispatch | src/arrsync/events.py:53-61 | Every event number of a run belongs to one of its dispatches |
| EventBus.OpenLoopKeepsOrder | src/arrsync/events.py:37-51 | While no loop closes, events published to a bound loop are dispatched in publishing order, none lost |
| EventBus.PublishOrderKept | src/arrsync/events.py:37-51 | Whatever loops are bound and closed: what is dispatched or scheduled is, in publishing order, what was published to an open loop, less what each closing loop had not dispatched yet |
| EventBus.FromStart | src/arrsync/events.py:23-72 | Delivery and order hold in every state a program can reach |
| EventBus.OthersDoNotMatter | src/arrsync/events.py:53-72 | A subscriber's whole stream is the same as if no other subscriber had acted |
| EventBus.Queues.DispatchTo | src/arrsync/events.py:53-61 | The loop over a snapshot, in any order, offers the event to each queue once and skips the full ones |
| LoginThrottle.LoginRateLimiter.RegisterFailure | src/arrsync/auth.py:156-168 | The key has one failure more, or one if a lockout has passed since a full count; the others are as they were; beyond 10,000 keys exactly the oldest fifth goes, none of which failed after one that stays |
| LoginThrottle.LoginRateLimiter.Reset | src/arrsync/auth.py:170-171 | Only the key's entry goes |
| LoginThrottle.FinishLogin | src/arrsync/routers/auth_routes.py:57-77 | What a login does to the map once its password is verified, the lock having been checked on an earlier map: a locked key leaves it, a wrong password is counted, a right one takes exactly the key out |
| LoginThrottle.Login | src/arrsync/routers/auth_routes.py:57-77 | A login that nothing interrupts: a locked key is refused before the password counts and the map stays, a wrong password is counted, a right one leaves exactly the old map without its key |
| LoginThrottle.SizeBounded | src/arrsync/auth.py:156-168 | Over every run of logins the map never holds more than 10,001 keys |
| LoginThrottle.TracksAlong | src/arrsync/auth.py:144-171 | However many attempts are in flight, what the map says of a key is the number of its failures since it was last accepted or evicted and the count last started again, and the time of the last one |
| LoginThrottle.FailuresAreSpread | src/arrsync/auth.py:144-171 | With at most c attempts of a key in flight, the n failures registered since it was last accepted or evicted span at least one lockout per max + c - 1 of them before the last |
| LoginThrottle.LockedIff | src/arrsync/auth.py:152-168 | A key is locked if and only if a full count of failures since it was last accepted or evicted stands and no lockout has passed since the last one |
| LoginThrottle.LimitKeptIff | src/arrsync/routers/auth_routes.py:57-77 | The count of a key never exceeds the limit if and only if no failure that was let through is registered while the key is locked |
| LoginThrottle.CountBounded | src/arrsync/routers/auth_routes.py:57-77 | With at most c attempts of a key in flight, its count never exceeds max + c - 1 |
| LoginThrottle.TwoAtOnce | src/arrsync/routers/auth_routes.py:57-77 | With a limit of one failure, two attempts in flight fail within one instant |
| LoginThrottle.OneAtATime | src/arrsync/auth.py:152-168 | When attempts come one at a time, the failures since the key was last accepted or evicted count up to the limit and from one again |
| LoginThrottle.OneAtATimeLocked | src/arrsync/auth.py:152-168 | Then a key is locked if and only if the number of its failures is a multiple of the limit and no lockout has passed since the last one |
| Base64Url.RoundTrip | src/arrsync/auth.py:45-101 | Decoding undoes encoding, for every byte string |
| Base64Url.EncodedAlphabet | src/arrsync/auth.py:45-101 | Encoded text stays within the URL-safe alphabet and the padding sign |
| Text.IntRoundTrip | src/arrsync/auth.py:79-101 | A printed integer reads back, and has only digits and a sign |
| SessionToken.PayloadRoundTrip | src/arrsync/auth.py:79-101 | The compact payload reads back to its expiry and epoch |
| SessionToken.PayloadTextIs | src/arrsync/auth.py:79-83 | The payload is the JSON object without spaces of the expiry and the epoch |
| SessionToken.OldTokenVerify | src/arrsync/auth.py:86-101 | A token whose payload has no epoch verifies at epoch 0 until its expiry and at no other epoch |
| SessionToken.MintVerify | src/arrsync/auth.py:74-101 | A minted token verifies if and only if the key signs its body the same way, the epoch is the minted one, and the time is before the expiry |
| SessionToken.TokensDieWithTheEpoch | src/arrsync/routers/auth_routes.py:111-119 | A token verifies later exactly until the first password change or its expiry |
| SessionToken.HashVerify | src/arrsync/auth.py:45-67 | A stored hash accepts exactly the passwords with the same digest under the stored salt, among them the original |
| SessionToken.OtherSchemesFail | src/arrsync/auth.py:53-67 | A stored text that does not start with the scheme verifies no password |
| Forwarded.ClientKey | src/arrsync/auth.py:125-141 | Without networks, or for a peer outside them, the key is the peer whatever the header says; else it is the last part of the header, split at commas, stripped and not blank, that is not trusted, and the peer if and only if there is none |
| Forwarded.FrontMattersOnlyIfAllTrusted | src/arrsync/auth.py:125-141 | Text put in front of the header matters only if every hop of the header is trusted |
| Forwarded.KeyIsRightmostUntrusted | src/arrsync/auth.py:125-141 | The key is the rightmost untrusted hop, and exists exactly when some hop is untrusted |
| Text.SplitAcross | src/arrsync/auth.py:125-141 | Splitting distributes over a separator |
| Text.JoinSplit | frontend/src/pages/LibraryPage.tsx:94-119 | Joining undoes splitting |
| Export.IterQueryChunks | src/arrsync/routers/library.py:36-60 | The loop yields page after page until a short one or the cap |
| Export.ExportIffWithinClamp | src/arrsync/routers/library.py:28-60 | Over one stable result the loop yields exactly the first rows up to the cap if and only if the chunk, the cap or the whole result fits the query's own limit |
| Export.StableChunks | src/arrsync/routers/library.py:36-60 | From every intermediate offset the rest of the loop yields the rest of the rows, no gap and no repeat |
| Export.OneArrangement | src/arrsync/routers/library.py:62-136 | Sort keys that separate all rows leave only one order |
| Export.SeparatedExport | src/arrsync/routers/library.py:28-60 | With sort keys that separate all rows, an export request gets the front of the only order there is, as long as its cap of at most 100,000 rows |
| Export.ChunkAt | src/arrsync/routers/library.py:36-60 | Row q of the export is row q of the result that the call of its page has seen |
| Export.SeparatedBoundaries | src/arrsync/routers/library.py:36-60 | When no tie straddles a page boundary, every export is the front of one permitted order, whatever orders its calls see |
| Export.StableExportIff | src/arrsync/routers/library.py:36-60 | The export is the front of one permitted order for all orders its calls may see, if and only if the sort keys tell the rows on both sides of every page boundary within it apart |
| Export.OneOrderNoRepeat | src/arrsync/routers/library.py:36-60 | The front of a permitted order repeats no row |
| Export.TiesCanRepeat | src/arrsync/routers/library.py:36-60 | A tie across any page boundary: when the calls from that page on see the two rows exchanged, the export repeats one and is the front of no permitted order |
| Export.ColumnsAre | src/arrsync/routers/shared.py:155-156 | The columns are exactly the first row's keys and the requested names, each once, in order of first appearance |
| Export.CsvResponse | src/arrsync/routers/shared.py:159-175 | The one-shot document: columns from the first row and the requested names, header only when there are rows |
| Export.CsvStream | src/arrsync/routers/shared.py:178-206 | The concatenated stream is the one-shot document, one part per row |
| Export.DocumentMore | src/arrsync/routers/shared.py:155-206 | One more row adds exactly its own line, and the header with the first |
| Coverage.LeftJoinIs | alembic/versions/0009_dub_sources_coverage.py:121-142 | An episode that counts joins with each live file of its instance that names it, and with nothing if and only if it has none |
| Coverage.OneGroupPerEpisode | alembic/versions/0009_dub_sources_coverage.py:121-142 | The grouped relation has one row per live, monitored, aired episode, however many file rows join |
| Coverage.EnglishMeansAFile | alembic/versions/0009_dub_sources_coverage.py:121-142 | The three-valued aggregate is true if and only if some live file of the episode has English audio |
| Coverage.TruthsAre | alembic/versions/0009_dub_sources_coverage.py:121-142 | The truth tables of SQL: a null makes OR and ANY unknown unless something is true, and takes no part in BOOL_OR |
| Coverage.CountsAreEpisodes | alembic/versions/0009_dub_sources_coverage.py:143-169 | Every number of the view counts episodes, not joined rows |
| Coverage.CountsAddUp | alembic/versions/0009_dub_sources_coverage.py:143-169 | english + non_english = downloaded <= aired |
| Coverage.StatusMeaning | alembic/versions/0009_dub_sources_coverage.py:153-160 | full: some episode aired and every aired one is downloaded with English audio; partial: some downloaded one lacks it; none otherwise |
| Coverage.ViewMeaning | alembic/versions/0009_dub_sources_coverage.py:143-169 | A line for each live series whose type spells anime in any case, with its own title and monitored flag; aired is the number of its live, monitored episodes with an air date not after now, the counts add up, and the status says what these episodes are |
| Coverage.FilesOnlyMoveEnglish | alembic/versions/0009_dub_sources_coverage.py:121-142 | Any other set of file rows leaves the aired and downloaded counts alone |
| Coverage.SharedFileIsPartial | alembic/versions/0014_episode_file_id.py:1-30 | A downloaded episode whose file row names another episode makes its series partial, whatever the languages |
| Coverage.StatusesAgreeIff | src/arrsync/services/warehouse_sql.py:11-31 | The view and the shared join give a series the same status if and only if both or neither find a downloaded episode without English |
| Coverage.OrphansOnly | src/arrsync/services/warehouse_sql.py:11-31 | When the rows that name an episode are its own file, the view misses exactly the English files recorded under another episode |
| Coverage.ViewLosesIff | alembic/versions/0014_episode_file_id.py:1-30 | Then the two statuses differ if and only if every downloaded episode has English audio and some such file is recorded under another episode; the view then says partial |
| LibraryUrl.SerializeLibraryState | frontend/src/pages/libraryUrlState.ts:70-86 | Setting parameters one by one writes exactly the fields that differ from the defaults, in order |
| LibraryUrl.GetWritten | frontend/src/pages/libraryUrlState.ts:70-86 | Every written parameter reads back, and an unwritten one is absent |
| LibraryUrl.CanonicalEmptyIff | frontend/src/pages/libraryUrlState.ts:70-86 | Nothing is written if and only if the state is the default one |
| LibraryUrl.ShowRoundTrip | frontend/src/pages/LibraryPage.tsx:94-119 | A show reads back from its parameter exactly when its id is a number and its instance is non-empty and free of bars; titles may hold bars |
| LibraryUrl.ReadShowIs | frontend/src/pages/LibraryPage.tsx:94-119 | What a show parameter reads as, by the parts between its bars; nothing clears the show, an unusable text leaves it |
| LibraryUrl.ReadModeIs | frontend/src/pages/LibraryPage.tsx:94-119 | The three known words, nothing for drilldown, anything else for the mode as it was |
| LibraryUrl.RoundTripIff | frontend/src/pages/LibraryPage.tsx:94-119 | Reading the address of a state gives back mode, filters and (in drilldown) show, whatever was shown before, if and only if a parameter is written, the limit is not zero, and the show fits |
| LibraryUrl.SearchKeepsView | frontend/src/pages/libraryUrlState.ts:42-66 | A header search keeps the stored mode, instance, sort and limit and drops offset, season and show |
| LibraryUrl.LibraryPage.WriteUrl | frontend/src/pages/LibraryPage.tsx:84-92 | The state-to-address effect |
| LibraryUrl.LibraryPage.ReadUrl | frontend/src/pages/LibraryPage.tsx:94-119 | The address-to-state effect, setter by setter, with its early return |
| LibraryUrl.EchoIsIgnored | frontend/src/pages/LibraryPage.tsx:84-119 | The page does not react to an address it has just written |
| LibraryUrl.LinkShowsItsState | frontend/src/pages/LibraryPage.tsx:84-119 | A link of a readable state shows that state, except if and only if it is the last self-written address and the page has moved on |
| LibraryUrl.BackIsIgnored | frontend/src/pages/LibraryPage.tsx:84-119 | Writing one address, following a link and going back leaves the first address with the second state |

## Left out

- Backlog.RunBacklogCycles: an ingest run that raises ends the driver with that error; the model has only cycles that return. Delays between cycles and job-run progress rows are not modelled.
- MalIngest.Run: the job lock and its lease, the job-run rows, and the Jikan enrichment with its title and external-id writes are not modelled; an exception from the database is not an outcome.
- MalTables.Parse: a payload is an object of lists whose elements are integers or not; other shapes of JSON, and Python's conversions of numeric text, are not distinguished further.
- MalStore.Store.UpsertAnimeFromMalApi: the descriptive columns (titles, score, dates) are not part of the model; timestamps other than the lookup time are not either.
- MatcherRuns.SettlesAfterFour: between the runs nothing else writes links, external ids or warehouse rows.
- Backlog.ImportAllDrains: a sufficient bound for runs without failures and without ids behind short batches; Backlog.ImportAllDrainsIff is exact.
- Matcher.Session.Run: confidence, match_detail and the diagnostic counts of a run are not modelled; the start year of an anime is taken as parsed, and integers are unbounded.
- LinkTables.RebuiltAt: lower-casing in the imdb comparison is ASCII.
- TagSync.Run: fetching the live list and creating the tag are outcomes given by the environment.
- Titles.MergeAdditionalTitleLists: the stored list is taken as already decoded. The two functions that collect titles from the MyAnimeList and Jikan responses apply the same push to other fields and are left out.
- WebhookDrain.StartedSoon: wall-clock times are not modelled; each stretch between two awaits is one atomic step, and the processing of a queue is one outcome.
- SecretFile.AllCallersAgree: writing a new key is one atomic step, and the runtime directory holds nothing but what this protocol writes. Encryption is modelled as readable exactly with the key that was used.
- EventBus.Delivery: publishing from another thread and scheduling on the loop are one step.
- LoginThrottle.FailuresAreSpread: a limit of zero failures is not covered, here and in the other statements about counts and locks over runs; the contracts of the methods cover it.
- SessionToken.MintVerify: payloads are read in the compact form that minting writes, with or without the epoch; other JSON spellings are not. The MAC and the constant-time comparison are opaque.
- Base64Url.RoundTrip: decoding is strict as in section 5 of RFC 4648, so that a text that decodes is the one encoding of its bytes (`Base64Url.DecodeRoundTrip`); Python's decoder also skips foreign characters.
- Forwarded.ClientKey: parsing networks and addresses is an arbitrary predicate on hop texts.
- Export.CsvResponse: how a row becomes a CSV line is an arbitrary function of columns and row; the paged response envelope is left out.
- Coverage.CountsAreEpisodes: a hasFile entry is a boolean or absent; text that does not cast is an error in PostgreSQL. The movie view is left out as the same construction over one table.
- LibraryUrl.RoundTripIff: numbers are integers or not-a-number; percent-encoding of the address is taken as undone by its decoding.
- LibraryUrl.SearchKeepsView: stored filters are complete; missing entries take the defaults before.
- Histories start from empty tables, not from rows that earlier versions of the schema left behind.
- Configuration (which sources are enabled, tier names), HTTP clients, alerting, the rule compiler, the scheduler, plain CRUD routes, remaining migrations and the other React components: outside the model.
