# LiteMLflow, modelled and proved in Dafny

LiteMLflow is an experiment tracker: a Go server over SQLite with a small web interface. This project
models the algorithms it runs on top of its tables, and a few self-contained state machines beside
them, and proves what they promise over all inputs, all histories or all interleavings.
`dafny verify dfyconfig.toml` checks everything.

Tables are finite maps or sequences with the uniqueness and cascade rules of the schema. Objects that
change in place are classes whose methods are proved against a function of the old contents; loops
stay loops. Clocks, hashes, page contents and the order in which the database lists rows are
parameters. Float64 values are real numbers, except where a value passes through a float64 on its way
back from JSON.

The main results:

- **Time travel** (`EventLog`, `TimeTravel`, `RunHistory`, `RunStore`, `Float64`). For every history of run and tag
  mutations cut anywhere, reading the final database as of a time at the cut returns the run and its
  tags exactly as they stood there, or one of two explicit errors (`TimeTravel.AsOfIsStateAtCut`).
  Mutations of one run are serialised, the events of that run are in timestamp order (as they are under
  any clock that does not run back), and end times survive a float64;
  `TimeTravel.ClockStepBackBreaksReplay` and `Float64.RoundTripExact` show what the last two are for.
  Going forward, every column and tag holds what the last accepted transaction that wrote it said
  (`RunHistory.LastWriteStands`).
- **Prompt versions** (`PromptVersions`). In every interleaving of optimistic "read the maximum, insert,
  retry" transactions, versions are exactly 1..n, no content is stored twice under a name, and a
  successful call returns the one version that holds its content. A call left alone always succeeds.
- **Pagination** (`Keyset`, `Paging`, `RunSearch`, `MetricTokens`, `MetricHistory`). The generated keyset
  clause means "strictly after the cursor" for any list of columns and directions; following tokens
  refines sorting once; a row present throughout is met exactly once while others come and go. The
  order of runs is stated on their fields.
- **Lineage** (`DatasetRows`, `DatasetLineage`, `RunLineage`). Dataset lineage is acyclic in every
  reachable state and its two bounded walks are exact below their cap. Run lineage may be cyclic: the
  upward walk is the longest repeat-free chain. The downward walk reports truncation exactly when a
  level it reaches finds more runs than the fan-out or the depth limit leaves a frontier; without such
  a report it is complete if and only if no generation that leads back to the root is wider than one
  query returns.
- **Line diff** (`LineDiff`). The common subsequence is longest, the script rebuilds both texts and no
  script changes fewer lines. The page "No differences." cannot be reached, because splitting a text
  never gives an empty list.
- **Webhook dispatcher** (`Dispatcher`). In every interleaving of Notify, eight workers, cancellation
  and any number of calls of Stop, an accepted job is queued, in one pair of hands or finished, is
  posted at most three times, and has exactly the outcome that the answers to its posts call for.
- **Rate limiter, downsampling, filters, registry, cache, metrics, analytics** (`RateLimiter`,
  `Downsample`, `RunFilter`, `InList`, `Names`, `ModelRegistry`, `RegistryHistory`, `RegistryStore`,
  `ResponseCache`, `MetricLabels`, `MetricFamilies`, `Analytics`): see the table.

Where the code and its comments disagree, the model follows the code:

- The dispatcher's comments say that jobs dropped after Stop are counted. A Notify that begins after
  Stop drops its batch uncounted, one that meets the stop flag half way counts one job of the rest, so
  what is still counted depends only on the calls under way at Stop. A job accepted after Stop's last
  look at the queue stays there uncounted
  (`Dispatcher.LateNotifyIsNotCounted`, `Dispatcher.OfferedJobsAreCounted`, `Dispatcher.StopCanMissAJob`).
- The comment on CreatePrompt leaves retrying to callers; the code retries itself.
- `walkDescendants` is documented to report truncation; it can lose a run without reporting it when the
  root lies on a cycle (`RunLineage.CrowdedLevelHidesARun` gives a whole walk that does).
- The downsampler's buckets include both ends, so a point can be returned twice in a row.
  `Downsample.AllDifferent` says exactly when, and `Downsample.NoneKeptTwice` gives a condition on the
  series that rules it out.

## Model

| member | source | states |
|---|---|---|
| `TimeTravel.AsOfIsStateAtCut` | internal/store/sqlite_events.go:141-230 | For every history cut in two and every time between the events of the two parts, a read as of that time gives the run and tags as they stood at the cut, or the missing-run or replay-limit error, exactly when those apply |
| `TimeTravel.ApplyKeepsPast` | internal/store/sqlite_events.go:232-294 | No transaction of any kind changes what any run looks like with its later events undone |
| `TimeTravel.AsOfBeforeCreation` | internal/store/sqlite.go:474-535 | A time from the caller's start time on but before the creating transaction gives the bare inserted row, without the parent and tag written in that transaction |
| `TimeTravel.PruneKeepsAnswers` | internal/store/sqlite_events.go:68-78 | Pruning events before B changes no successful or missing-run answer for any time from B - 1 on |
| `TimeTravel.ClockStepBackBreaksReplay` | internal/store/sqlite_events.go:58-66 | Counterexample: with a clock that steps back, replay in timestamp order returns a state the run did not have |
| `TimeTravel.MonotoneClockSuffices` | internal/store/sqlite_events.go:58-66 | Under a clock that never runs back the events of every run are in timestamp order in every reachable table |
| `TimeTravel.OrderRowsOrders` | internal/store/sqlite_events.go:163-170 | Sorting by timestamp and id keeps the rows and orders them, whatever the clock did |
| `TimeTravel.CreateRunKeepsPast` | internal/store/sqlite_lineage.go:33-62 | Creating a run with a parent, mirrored into column and tag in one transaction, leaves every past view alone |
| `TimeTravel.UpdateRunKeepsPast` | internal/store/sqlite.go:561-612 | Updating status, end time or name is undone by its event, for end times a float64 holds exactly |
| `TimeTravel.SetRunLifecycleKeepsPast` | internal/store/sqlite.go:614-640 | Deleting or restoring a run is undone by its event |
| `TimeTravel.SetTagKeepsPast` | internal/store/sqlite.go:1547-1588 | Setting a tag, with the parent column following the parent tag, is undone by its event |
| `TimeTravel.UndoTagBatch` | internal/store/sqlite.go:1595-1656 | A batch of tags, repeated keys included, is undone by its per-element events although each holds the value before the whole batch |
| `TimeTravel.SetTagsKeepsPast` | internal/store/sqlite.go:1595-1656 | A tag batch, parent synchronisation included, leaves every past view alone, also when it is rolled back |
| `TimeTravel.DeleteTagKeepsPast` | internal/store/sqlite.go:1660-1686 | Deleting a tag is undone by its event |
| `TimeTravel.ArchiveKeepsPast` | internal/store/sqlite_lineage.go:407-514 | Archiving any number of stale runs in one transaction is undone run by run |
| `TimeTravel.ApplySound` | internal/store/sqlite_events.go:50-66 | Every transaction keeps event ids ascending, each event with the clock reading of its id and an existing run, and removes no run |
| `RunHistory.LastWriteStands` | internal/store/sqlite.go:474-640 | After any history every column of a run, and every tag, holds what the last accepted transaction that wrote it said, whatever came before and whatever else was written since |
| `RunHistory.UnwrittenStays` | internal/store/sqlite.go:474-640 | A column or tag that no accepted transaction of a history writes keeps its value, and a run no transaction creates does not appear |
| `RunHistory.DoneIffAccepted` | internal/store/sqlite.go:474-640 | A transaction succeeds exactly when its values are admitted and the rows it names exist; a failed one leaves the whole database as it was |
| `RunHistory.UpdateFollows` | internal/store/sqlite.go:561-612 | An update sets status, end time and name where it gives them; the other columns, the tags and every other run stay |
| `RunHistory.StageFollows` | internal/store/sqlite.go:614-640 | A lifecycle change sets the stage of its run and nothing else |
| `RunHistory.CreateFollows` | internal/store/sqlite.go:474-535 | A new run has the submitted values, the defaults where they are missing, its parent in the column, and no tag but the mirrored parent; other runs stay |
| `RunHistory.SetTagFollows` | internal/store/sqlite.go:1547-1588 | A tag gets its value, the parent column follows a parent tag that has one, and nothing else changes |
| `RunHistory.SetTagsFollows` | internal/store/sqlite.go:1595-1656 | Each key of a batch gets its last value, the parent column the last parent, and nothing else changes |
| `RunHistory.LastElementWins` | internal/store/sqlite.go:1595-1656 | The last value of a key in a batch is that of its last element |
| `RunHistory.DeleteTagFollows` | internal/store/sqlite.go:1660-1686 | The tag is gone and nothing else changes, the parent column included |
| `RunHistory.ArchiveFollows` | internal/store/sqlite_lineage.go:407-514 | Exactly the listed running, active runs that started before the bound become failed with the given end time and the stale tag; all else stays |
| `RunHistory.PruneDeletesOld` | internal/store/sqlite_events.go:71-78 | Pruning deletes exactly the events before the bound and touches nothing else |
| `RunHistory.MissingIffElsewhere` | internal/store/sqlite_events.go:141-230 | After any history a read as of a time misses a run exactly if it started later or its experiment is not in the workspace; the empty workspace sees every run |
| `Names.KeyEnds` | internal/model/types.go:242-250 | A key is a name without white space at either end: trimming leaves it as it is |
| `Float64.RoundTripExact` | internal/store/sqlite_events.go:245-251 | Every integer of magnitude up to 2^53 survives the trip through a float64, and 2^53 + 1 does not |
| `Float64.SurvivesIffFits` | internal/store/sqlite_events.go:245-251 | Exactly the integers of at most 53 significant bits survive the trip through a float64 |
| `Float64.NearestIsNearest` | internal/store/sqlite_events.go:245-251 | Rounding gives a multiple of the step no further off than half of it, the even one if two are as near |
| `RunStore.Store.GetRunAsOf` | internal/store/sqlite_events.go:141-230 | The bounded scan and the backward undo loop compute the specified answer |
| `RunStore.Store.CreateRun` | internal/store/sqlite.go:474-535 | The in-place insert, parent write and mirror tag, with rollback, are the specified transaction |
| `RunStore.Store.UpdateRun` | internal/store/sqlite.go:561-612 | The in-place update and its event are the specified transaction |
| `RunStore.Store.SetRunLifecycle` | internal/store/sqlite.go:614-640 | The in-place lifecycle change and its event are the specified transaction |
| `RunStore.Store.SetTag` | internal/store/sqlite.go:1547-1588 | The in-place tag write, parent sync and event, with rollback, are the specified transaction |
| `RunStore.Store.SetTags` | internal/store/sqlite.go:1595-1656 | The loops over a batch, with rollback on a bad parent, are the specified transaction |
| `RunStore.Store.DeleteTag` | internal/store/sqlite.go:1660-1686 | The in-place delete and its event are the specified transaction |
| `RunStore.Store.ArchiveStaleRuns` | internal/store/sqlite_lineage.go:407-514 | Listing, re-checking, rewriting and logging stale runs is the specified transaction, in whatever order they are listed |
| `RunStore.Store.PruneEventsBefore` | internal/store/sqlite_events.go:71-78 | The in-place delete keeps exactly the events from the bound on and counts the others |
| `PromptVersions.VersionsAreContiguous` | internal/store/sqlite.go:1970-2026 | At every moment of every interleaving the versions of a name are exactly 1..n |
| `PromptVersions.ReturnedVersionIsTheOne` | internal/store/sqlite.go:1970-2026 | No two versions of a name share content, and every call that returned did so with the only version holding its content |
| `PromptVersions.FreeSlotMeansUnchanged` | internal/store/sqlite.go:1989-2022 | Why a unique version number is enough: if the slot after a snapshot's maximum is still free, nothing was added under that name since the snapshot |
| `PromptVersions.RunKeepsInv` | internal/store/sqlite.go:1970-2026 | Every step of every call, failed and retried attempts and a lock met by any statement included, keeps the invariant |
| `PromptVersions.CommittedRowsStay` | internal/store/sqlite.go:1970-2026 | A committed version is never changed or removed by later steps |
| `PromptVersions.OverStaysOver` | internal/store/sqlite.go:1970-2026 | What a call returned, or that it failed, is never taken back |
| `PromptVersions.LoneCallReturns` | internal/store/sqlite.go:1970-2026 | From every reachable state without a held write lock a new call, left alone, returns: the version that holds its content, or the next version, which then holds it while the rest of the table stays |
| `PromptVersions.ReadyCallReturns` | internal/store/sqlite.go:2289-2306 | So does a call that is about to retry |
| `PromptVersions.GivingUpNeedsRivals` | internal/store/sqlite.go:2289-2306 | A call fails only after six attempts, and each was lost to another commit since the call began or to a held lock |
| `PromptVersions.SixAttempts` | internal/store/sqlite.go:2289-2306 | In every run a call has given up if and only if it has lost six attempts; after fewer it tries again |
| `PromptVersions.LockIsReleased` | internal/store/sqlite.go:1970-2026 | The write lock is held exactly by a call that has inserted and not yet committed; failing or retrying lets go of it |
| `PromptVersions.CommitsAreCounted` | internal/store/sqlite.go:1970-2026 | The commit counter by which lost races are told is the number of commits of the run |
| `Keyset.KeysetPredicate` | internal/store/sqlite.go:1114-1132 | The clause built by the nested loops, with its arguments bound by position, holds of a row if and only if the row is strictly after the cursor |
| `Keyset.KeyBeforeTotal` | internal/store/sqlite.go:1076-1086 | The lexicographic order of any columns and directions is a strict total order: exactly one of before, equal, after |
| `Keyset.KeyBeforeTransitive` | internal/store/sqlite.go:1076-1086 | That order is transitive |
| `Keyset.TextLessAt` | internal/store/sqlite.go:1076-1086 | Texts are ordered by the first character in which they differ, a prefix first |
| `Keyset.KeysRefineRows` | internal/store/sqlite.go:766-885 | Comparing key vectors with their null ranks and substitutes is comparing rows column by column with missing values last in both directions |
| `Keyset.RowBeforeOnFields` | internal/store/sqlite.go:963-1062 | The order of runs, read off their fields: the first term that tells two runs apart decides, a missing end time counts as -1, a missing metric, parameter or tag is last in both directions, then the id |
| `Keyset.EmitCursor` | internal/store/sqlite.go:963-992 | The cursor emitted after a page is the key vector of its last row |
| `Paging.CutListing` | internal/store/sqlite.go:714-764 | The result after the key of the k-th row is the rest of the result from k on |
| `Paging.FetchPage` | internal/store/sqlite.go:714-764 | Filter by the clause, sort, fetch one row too many: the page is the specified page |
| `Paging.PageInOrder` | internal/store/sqlite.go:714-764 | A page is sorted, full unless it is the last, and everything it leaves for later comes after it |
| `Paging.WalkIsListing` | internal/store/sqlite.go:359-402 | Over an unchanged table the pages concatenate to the sorted result |
| `Paging.WalkPageCount` | internal/store/sqlite.go:714-764 | All pages but the last are full, and their number is the page count of the result |
| `Paging.PagesIsCeiling` | internal/store/sqlite.go:714-764 | That page count is max(1, ceil(n / page size)) |
| `Paging.WalkIncreases` | internal/store/sqlite.go:714-764 | A walk over tables that change between pages returns strictly increasing keys, so nothing twice |
| `Paging.StableRowSeenOnce` | internal/store/sqlite.go:714-764 | A row present throughout with unchanged keys appears exactly once in a completed walk, whatever happens to other rows |
| `RunSearch.RunsFormTable` | internal/store/sqlite.go:998-1062 | The id tie-break makes key vectors unique for any order terms |
| `RunSearch.RunListing` | internal/store/sqlite.go:644-885 | The unpaged result holds every run once, in the order asked for |
| `RunSearch.SearchRuns` | internal/store/sqlite.go:644-885 | A token of the wrong width is refused; any other gives the specified page, its runs in the order of their fields, the first page the first of them; without order terms start times never increase; at most 1000 runs by default and 50000 ever |
| `RunSearch.DefaultIsNewestFirst` | internal/store/sqlite.go:1055-1062 | In the default order later start times come first, then smaller ids |
| `MetricTokens.TokenReadsBack` | internal/store/sqlite.go:1750-1767 | Every pair of 64-bit timestamp and step, negative ones included, is read back from its decimal token |
| `MetricHistory.GetMetricHistory` | internal/store/sqlite.go:1703-1748 | A token is refused exactly when it does not decode; otherwise the answer is the specified page, or everything without a page size, and the next token decodes to the last point |
| `MetricHistory.PagesAreTheSeries` | internal/store/sqlite.go:1703-1748 | Following tokens gives every point of the series once, by timestamp and then step |
| `MetricHistory.PastPointIsPastCursor` | internal/store/sqlite.go:1708-1717 | The hand-written two-column condition is the keyset order |
| `MetricHistory.SearchExperiments` | internal/store/sqlite.go:327-407 | A page of experiments is the specified page: creation times never increase along it, ids increase within one moment |
| `DatasetLineage.Acyclic` | internal/store/sqlite_datasets_v2.go:55-124 | Ancestors have smaller ids, descendants larger ones, both in the same workspace, so no dataset is its own ancestor |
| `DatasetLineage.Store.GetDatasetLineage` | internal/store/sqlite_datasets_v2.go:224-309 | Both walks return distinct reached datasets, all of them below the cap of 256, and sharing one visited set loses nothing |
| `DatasetLineage.Store.WalkAncestors` | internal/store/sqlite_datasets_v2.go:232-257 | The upward walk lists distinct strict ancestors, all of them below the cap |
| `DatasetLineage.Store.WalkDescendants` | internal/store/sqlite_datasets_v2.go:259-306 | The downward walk lists distinct strict descendants, all of them below the cap |
| `DatasetLineage.Store.CreateDatasetVersionOnce` | internal/store/sqlite_datasets_v2.go:55-124 | Creation succeeds if and only if every parent exists in the workspace, gets the next version, records each parent once, keeps all edges pointing to smaller ids, and changes nothing when it fails |
| `DatasetLineage.Store.SoftDeleteDatasetVersion` | internal/store/sqlite_datasets_v2.go:333-351 | Deletion only hides the row: every edge stays between existing rows |
| `DatasetRows.MaxVersion` | internal/store/sqlite_datasets_v2.go:77-86 | The loop finds the largest version of a name in a workspace, 0 if there is none |
| `RunLineage.WalkAncestors` | internal/store/sqlite_lineage.go:180-209 | The result is a repeat-free chain of in-workspace parents, at most 256 long, that cannot be extended |
| `RunLineage.LongestChain` | internal/store/sqlite_lineage.go:180-209 | Such a chain contains every other repeat-free chain, so it is the longest |
| `RunLineage.WalkDescendants` | internal/store/sqlite_lineage.go:258-327 | The queries, level by level, are the specified walk: distinct active in-workspace runs within the depth limit, never the root; truncation is reported exactly for an overflowing level or a frontier left at the limit; without it all descendants are returned if and only if no generation is crowded |
| `RunLineage.ListedAreActive` | internal/store/sqlite_lineage.go:258-327 | Every run the downward walk lists is active and in the workspace |
| `RunLineage.ReachedOnRows` | internal/store/sqlite_lineage.go:272-284 | A run is one step further exactly if an active row of the workspace has a parent reached before |
| `RunLineage.WalkReturns` | internal/store/sqlite_lineage.go:258-327 | With no overflow and no crowded generation up to the limit the walk returns exactly the runs within it; otherwise a descendant is missing however far it goes on |
| `RunLineage.OverflowIsNoted` | internal/store/sqlite_lineage.go:300-315 | A level with more unseen runs among the fetched rows than the fan-out raises the flag for the whole walk |
| `RunLineage.NotedIsOverflow` | internal/store/sqlite_lineage.go:300-315 | Nothing else raises the flag |
| `RunLineage.FetchedFirst` | internal/store/sqlite_lineage.go:272-284 | A query that leaves children out returns a full set of those that started first, in order of start |
| `RunLineage.CrowdedNeedsCycle` | internal/store/sqlite_lineage.go:258-327 | A crowded generation needs the root to be its own descendant |
| `RunLineage.CrowdedLevelHidesARun` | internal/store/sqlite_lineage.go:258-327 | Counterexample family: two runs in a cycle with two more children, fan-out 1, any depth from 3 on: the whole walk returns two of the three descendants and reports no truncation |
| `LineDiff.ComputeLcs` | ui/static/app.js:4662-4680 | The pairs match equal lines, increase strictly in both coordinates, and no common subsequence is longer |
| `LineDiff.LcsBounds` | ui/static/app.js:4662-4680 | No common subsequence from a cell on is longer than the cell says |
| `LineDiff.FillTable` | ui/static/app.js:4664-4671 | The table filled in place holds the longest length from every pair of positions on |
| `LineDiff.ScriptLowerBound` | ui/static/app.js:4640-4660 | No edit script between two texts changes fewer lines than the two together have, less twice the longest common subsequence |
| `LineDiff.WalkScript` | ui/static/app.js:4646-4658 | The walk stays in range, ends, and its script rebuilds both line lists at the cost of the unmatched lines |
| `LineDiff.RenderLineDiff` | ui/static/app.js:4640-4660 | The diff rebuilds both texts, is minimal, is never empty, and changes no line if and only if the texts are equal |
| `Dispatcher.RunKeepsInv` | internal/webhooks/dispatcher.go:164-287 | Every step of every interleaving keeps the queue first in first out, the hands distinct, the posts counted and the offers conserved |
| `Dispatcher.EveryJobIsSomewhere` | internal/webhooks/dispatcher.go:212-287 | In every run an accepted job is queued, held by exactly one worker or Stop, or finished, never two of these, and was posted at most three times; the queue is the accepted jobs not yet taken, in order, at most 1024 |
| `Dispatcher.EndsOnlyAfterTrying` | internal/webhooks/dispatcher.go:319-358 | Without a shutdown a job ends only by success within three posts, by three failed posts, by the echo log without a post, or because it cannot be encoded |
| `Dispatcher.StoryDecides` | internal/webhooks/dispatcher.go:287-358 | In every run what happens to a job decides its outcome and is decided by it: delivered at the n-th post if and only if that one succeeded after failures only, given up if and only if three posts failed, aborted if and only if a shutdown met it after failures; nothing follows a success, and a job with one or two failed posts is still in hand |
| `Dispatcher.EchoIsNeverPosted` | internal/webhooks/dispatcher.go:302-317 | In every run an echo job is never posted, and a worker gives way to a cancellation only if there is one |
| `Dispatcher.PostsAlternateWithWaits` | internal/webhooks/dispatcher.go:319-358 | In every run a job is posted again only after a wait, and waited for only after a failed post |
| `Dispatcher.FlagsAreSet` | internal/webhooks/dispatcher.go:164-191 | The stop flag is set exactly once Stop was called, and the server is cancelled exactly once it was told to |
| `Dispatcher.OfferedJobsAreCounted` | internal/webhooks/dispatcher.go:212-262 | Offered jobs are the accepted, the counted dropped, the pending and the lost ones; nothing is lost before Stop |
| `Dispatcher.CleanStopHandsOverAll` | internal/webhooks/dispatcher.go:164-191 | When a Stop returns without timing out, no worker is left and every job accepted before its last look at the queue is finished or held by another Stop, cancellation or not |
| `Dispatcher.LateJobsStay` | internal/webhooks/dispatcher.go:177-191 | Jobs accepted after all workers and Stops are done stay queued, unposted, until Stop is called again |
| `Dispatcher.StopCanMissAJob` | internal/webhooks/dispatcher.go:203-211 | Counterexample run: a job accepted after a clean Stop is left in the queue and counted nowhere |
| `Dispatcher.LateNotifyIsNotCounted` | internal/webhooks/dispatcher.go:216-221 | In every run from Stop on, what is accepted or counted as dropped grows by what the calls of Notify under way at Stop are due, at most two jobs each; however many jobs later calls offer, none of them is counted |
| `RateLimiter.Limiter.Allow` | internal/server/ratelimit.go:43-61 | After every call sequence the answer is that of a limiter that never evicts, and what stays in memory was used within two minutes or was not full a minute ago |
| `RateLimiter.Limiter.Sweep` | internal/server/ratelimit.go:66-81 | The loop removes exactly the buckets idle over a minute and full by now, at most once a minute |
| `RateLimiter.AllowRefines` | internal/server/ratelimit.go:43-81 | One call, sweep included, keeps the buckets equal to the reference but for buckets that are full again |
| `RateLimiter.AllowedInWindow` | internal/server/ratelimit.go:43-61 | Over any stretch of any history a client gets through at most a full bucket plus what the stretch refills |
| `RateLimiter.AllowedPerSecond` | internal/server/ratelimit.go:43-61 | In D seconds at most capacity + refill * D calls of a client are allowed |
| `RateLimiter.AllowedIffRoom` | internal/server/ratelimit.go:43-61 | Exactly which calls pass: a call is allowed if and only if it keeps every stretch of the history that ends with it within a full bucket plus what the stretch refills |
| `RateLimiter.BurstIsAllowed` | internal/server/ratelimit.go:43-61 | A client with a full bucket gets as many calls through as the bucket holds tokens, however close together |
| `RateLimiter.NewClientIsFull` | internal/server/ratelimit.go:43-61 | A client that never called has a full bucket |
| `RateLimiter.RefusedCallIsFree` | internal/server/ratelimit.go:43-61 | A refused call changes no later answer |
| `RateLimiter.PacedClientIsAllowed` | internal/server/ratelimit.go:43-61 | A client that leaves one token's refill time between calls is never refused |
| `Downsample.DownsampleLttb` | internal/store/downsample.go:25-101 | Fewer than 3 or no fewer than all points asked for: unchanged; otherwise exactly the target number, both ends, and for each bucket the first point with the largest triangle |
| `Downsample.LargestTriangle` | internal/store/downsample.go:81-92 | The loop finds the first index of a bucket with the largest area |
| `Downsample.ComputeMean` | internal/store/downsample.go:59-74 | The loop computes the mean of the next bucket, or takes the last point when there is none |
| `Downsample.MeanBalances` | internal/store/downsample.go:59-74 | The mean of a bucket is the one point from which the deviations of its points cancel out |
| `Downsample.CornerBalances` | internal/store/downsample.go:52-74 | The far corner of a bucket is the mean of the next one without the point both share |
| `Downsample.Buckets` | internal/store/downsample.go:36-57 | No bucket is empty, each ends where the next begins, the last ends before the last point |
| `Downsample.BucketsCover` | internal/store/downsample.go:36-57 | Every inner point lies in a bucket |
| `Downsample.TwoInABucket` | internal/store/downsample.go:36-57 | Every bucket holds at least two points |
| `Downsample.OnlyLastBucketFallsBack` | internal/store/downsample.go:52-74 | Only the last bucket has no bucket after it and uses the last point |
| `Downsample.PicksInOrder` | internal/store/downsample.go:44-99 | Kept indices never decrease, and the two ends are apart from the rest |
| `Downsample.PicksAreDetermined` | internal/store/downsample.go:44-99 | The specification admits exactly one list of kept indices |
| `Downsample.KeptTwice` | internal/store/downsample.go:44-96 | One pair: a point is kept twice in a row if and only if the next bucket begins at it and lies in line with it and the far corner |
| `Downsample.AllDifferent` | internal/store/downsample.go:44-99 | The kept indices of the whole output are different and increasing if and only if no bucket after the first begins at the point kept before it and lies in line with it and the far corner |
| `Downsample.NoneKeptTwice` | internal/store/downsample.go:44-99 | On the series alone: if no bucket after the first lies in line with its first point and its far corner, no point is returned twice |
| `Downsample.SpikeIsKeptTwice` | internal/store/downsample.go:44-96 | Example: five points, four asked for, the spike comes back twice |
| `RunFilter.SplitOnAnd` | internal/store/sqlite.go:1164-1202 | The scan with its jumps computes the specified pieces |
| `RunFilter.SplitJoined` | internal/store/sqlite.go:1164-1202 | Predicates with closed quotes, balanced parentheses and at most one AND, preceded by its BETWEEN, are given back after joining them with AND in any mix of case |
| `RunFilter.SplitRebuilds` | internal/store/sqlite.go:1164-1202 | For any text the pieces, with an AND in either case between each two, are the text |
| `RunFilter.NestingCounts` | internal/store/sqlite.go:1164-1202 | The scan is in quotes after an odd number of them, and as deep as unquoted parentheses are open |
| `InList.ParseInValues` | internal/store/sqlite.go:1347-1392 | The scan with its jumps computes the specified values |
| `InList.QuotedListReadsBack` | internal/store/sqlite.go:1347-1392 | Any list of strings, quoted with doubled quotes and joined with commas, is read back |
| `InList.PlainListReadsBack` | internal/store/sqlite.go:1347-1392 | Values without quotes, with any white space around the commas between them, are read back |
| `InList.RefusedIffOddQuotes` | internal/store/sqlite.go:1385-1387 | A list is refused if and only if it holds an odd number of quotes |
| `ModelRegistry.RunKeepsSound` | internal/store/registry.go:20-883 | In every run of calls, failed ones included, every version, tag and alias row refers to a model and version that exist |
| `ModelRegistry.RenameCannotCollide` | internal/store/registry.go:159-173 | With foreign keys off, none of the four updates can meet a taken key, because nothing is stored under a free name |
| `ModelRegistry.RenamedRows` | internal/store/registry.go:159-164 | A rename of a table relabels: each row is where its old key under the new name says, with its old value, and no other row appears |
| `ModelRegistry.RenameThereAndBack` | internal/store/registry.go:107-179 | Renaming and renaming back restores every row; only the model's update time differs |
| `ModelRegistry.NewVersionIsBare` | internal/store/registry.go:574-634 | Deleting a version frees its number if and only if it was the newest, and the next version has no tag and no alias of an earlier holder |
| `ModelRegistry.OneInProduction` | internal/store/registry.go:808-850 | Promoting with archiving leaves one version of the model in Production; other models and other stages are untouched |
| `RegistryHistory.FailsExactly` | internal/store/registry.go:20-883 | Every call fails exactly for a bad name, a taken name or a missing row, and a failed call changes nothing |
| `RegistryHistory.ModelAfterCall` | internal/store/registry.go:20-218 | Call by call, the row of every model: created, updated, deleted, renamed with its description, and otherwise unchanged |
| `RegistryHistory.VersionAfterCall` | internal/store/registry.go:574-850 | Call by call, the row of every version: a transition sets the stage and archives the others in Production only if asked to; creation takes the next number; deletions and renames take rows away or along; nothing else changes |
| `RegistryHistory.AliasAfterCall` | internal/store/registry.go:521-550 | Call by call, the version every alias points to: set, deleted, gone with its version or model, taken along by a rename, and otherwise unchanged |
| `RegistryHistory.ModelTagAfterCall` | internal/store/registry.go:487-515 | Call by call, every tag of a model |
| `RegistryHistory.VersionTagAfterCall` | internal/store/registry.go:853-883 | Call by call, every tag of a version, which goes with the version |
| `RegistryStore.Store.RenameRegisteredModel` | internal/store/registry.go:107-179 | The sequence of updates is the specified rename, never refused half way, and keeps the tables sound |
| `RegistryStore.Store.TransitionModelStage` | internal/store/registry.go:808-850 | Archive, update, roll back: the specified transition, which fails exactly when the version is missing and then leaves everything as it was, the archived others included |
| `RegistryStore.Store.CreateModelVersion` | internal/store/registry.go:574-634 | The new version is one more than the largest there is; errors exactly for a bad name or a missing model |
| `RegistryStore.Store.DeleteModelVersion` | internal/store/registry.go:681-695 | The version goes with its tags and the aliases that point to it |
| `RegistryStore.Store.SetModelAlias` | internal/store/registry.go:521-534 | An alias is set only to an existing version, and the tables stay sound |
| `ResponseCache.Store.Get` | internal/federation/federation.go:267-288 | A lookup answers as specified and drops an expired entry from map and key list alike |
| `ResponseCache.Store.Put` | internal/federation/federation.go:291-304 | A new key takes the last place and at most the oldest leaves; a known key keeps its place |
| `ResponseCache.RunKeepsValid` | internal/federation/federation.go:267-312 | After any calls the key list has no duplicates, is the domain of the map and is within the capacity |
| `ResponseCache.HitIsLatestPut` | internal/federation/federation.go:267-304 | A hit is the latest payload put under the key since the last reset, within the time to live |
| `ResponseCache.EvictionNeedsLaterKeys` | internal/federation/federation.go:291-304 | When a Put drops an entry, the cache then holds as many distinct keys as its capacity, and every one of them was put while absent after the entry came in |
| `ResponseCache.PutIsFound` | internal/federation/federation.go:267-304 | Until as many other keys as the capacity have been put while absent, however often keys already present are put again, the latest payload under a key is found if and only if it has not expired |
| `MetricFamilies.Counter.Add` | internal/metrics/registry.go:157-163 | After any history each series holds the total of what was routed to it |
| `MetricFamilies.Histogram.Observe` | internal/metrics/registry.go:252-269 | After any history, count, sum and every bucket count of a series are those of the values routed to it, bucket i counting the values at most its bound |
| `MetricFamilies.SeriesAreCapped` | internal/metrics/registry.go:37-49 | A labelled family has at most 10000 series, or 10001 with the overflow series among them |
| `MetricFamilies.NewSeriesWhileRoom` | internal/metrics/registry.go:37-49 | While there is room, and always for a label set that has a series, an observation is in the series of its own label set |
| `MetricFamilies.SeriesHoldsItsOwn` | internal/metrics/registry.go:37-49 | A series other than the overflow series holds exactly the observations of its own label set |
| `MetricFamilies.TotalsAddUp` | internal/metrics/registry.go:157-163 | The series of a counter, listed in any order, add up to everything ever added |
| `MetricFamilies.CountsAddUp` | internal/metrics/registry.go:252-269 | The counts of the series, listed in any order, add up to the number of observations |
| `MetricLabels.LabelSetKey` | internal/metrics/registry.go:341-357 | The loop builds the specified key |
| `MetricLabels.KeysDiffer` | internal/metrics/registry.go:341-357 | Full label sets without NUL characters have different keys |
| `MetricLabels.EscapeIsEach` | internal/metrics/registry.go:396-401 | The three replacement passes escape each character exactly once |
| `MetricLabels.EscapeReadsBack` | internal/metrics/registry.go:396-401 | An escaped value can be read back, so escaping is injective |
| `MetricLabels.FormatLabels` | internal/metrics/registry.go:360-383 | The loop over the split key writes the specified text |
| `MetricLabels.KeyFormatsToLabels` | internal/metrics/registry.go:360-383 | Formatting the key of a label set writes back the names and escaped values it was made from |
| `Analytics.AnalyticsQuery` | internal/store/analytics.go:193-273 | From the tables alone: every row counts the distinct matching runs of its group and carries their maximum, minimum or mean; a maximum or minimum row names a run of the group that passes all filters, bounds included, and attains the value; without a cut by the limit every group with a run has a row |
| `Analytics.RunAggregateQuery` | internal/store/analytics.go:400-514 | Join, filter, group and cut give at most the limit of rows, no group twice, each with the right count and aggregate, and all groups when nothing is cut off |
| `Analytics.JoinIsLookup` | internal/store/analytics.go:400-490 | The joins with runs, experiments and, optionally, a parameter or tag give a metric row one joined row or none, because of the primary keys |
| `Analytics.BelongsOnTables` | internal/store/analytics.go:400-480 | Read off the tables: a metric row puts its run in a group exactly when run and experiment rows exist, the workspace is the asked one and every filter, bound and group value holds |
| `Analytics.ResolveBestRuns` | internal/store/analytics.go:277-385 | The lookup per row always finds such a run, and changes nothing else of the row |
| `Analytics.CandidatesMatch` | internal/store/analytics.go:302-363 | The lookup may omit the bounds: whatever it returns is a run of the row's group that passes them |
| `Analytics.BestOnTables` | internal/store/analytics.go:277-385 | The run a row names is a run of its group that has its value, with the name and experiment of that run in the tables |
| `Analytics.CountsDistinctRuns` | internal/store/analytics.go:481-484 | The number of joined rows of a group, optional join included, is the number of its distinct runs |
| `Analytics.TotalIsMatching` | internal/store/analytics.go:236-256 | When the limit cuts nothing off, the runs scanned are the matching runs, each once |
| `Analytics.EveryGroupHasARow` | internal/store/analytics.go:213-256 | When the limit cuts nothing off, the groups that have a row are exactly the groups that have a run |

## Left out

- Interleaved mutations of one run: the state before a mutation is read outside its transaction, so histories are serial for each run.
- Workspace deletion: it cascades over runs and clears parents without writing events.
- The SQL engine, connection handling and context cancellation inside the store; statements are taken to do what they say on one snapshot.
- The order of a run's tags, and metrics as of a time.
- TimeTravel.AsOfIsStateAtCut: takes end times that a float64 holds exactly and the run's events in timestamp order, because the event payload and the replay order need them.
- PromptVersions.ReturnedVersionIsTheOne: contents with equal hashes count as equal, because the code compares hashes only.
- RunSearch.SearchRuns: takes parsed order terms and decoded tokens; base64 and JSON are taken as exact, with integers up to 2^53.
- DatasetLineage.Store.GetDatasetLineage: takes the id of the dataset; the lookup by workspace, name and version and the retry around creation are not modelled.
- RunLineage.WalkDescendants: takes depth and fan-out after the defaults and caps are applied.
- LineDiff.RenderLineDiff: gives tagged lines; HTML escaping and the 32-bit table cells are not modelled.
- Dispatcher.RunKeepsInv: delivery is counted in posts; payloads, signatures, back-off times and the recorded attempt status are not modelled.
- RateLimiter.Limiter.Allow: real-valued tokens and seconds; the client key derivation is not modelled.
- Downsample.NoneKeptTwice: one direction only; the exact condition, in `Downsample.AllDifferent`, depends on which point the bucket before keeps.
- Downsample.DownsampleLttb: index arithmetic and areas are exact; float64 rounding is not modelled.
- RunFilter.SplitJoined: ASCII text; parsing a single predicate into SQL would add case analysis only.
- RegistryStore.Store.CreateModelVersion: one call at a time; the retry protocol is that of the prompt versions.
- Analytics.AnalyticsQuery: query validation and the order of rows are not modelled, and a mean is exact, without float64 rounding.
- RegistryHistory.ModelAfterCall: takes updates that give a description; without one the call only reads.
- Deduplication and sorting of histogram bounds, gauges, and the text exposition around labels.
- HTTP handlers, authentication, sessions, permissions, artifact storage, backup, importers, gRPC, the operator, the command line, the Python client and the rest of the web interface: input, output and simple case analysis.
