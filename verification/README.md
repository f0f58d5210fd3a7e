# Sashiko: a verified model of its state machines

Sashiko takes mail and git patches, groups them into threads and patchsets, schedules AI reviews over a pool of
workers and sends the results. This project models the logic that holds that pipeline's state together and proves
what it keeps, over every input and every run. SQL tables are maps, one statement is one atomic step, and the
answers of git, the network, the clock and the language model are inputs.

`dafny verify dfyconfig.toml` checks everything.

## How it is organised

| files | what they model |
|---|---|
| `Tables`, `Threads`, `Patchsets`, `Ingestion`, `Database` | the ingestion store. `Threads` and `Patchsets` define every operation on a snapshot of the tables and prove what it keeps; `Ingestion` runs articles, fetch requests, failures, cancellations, reruns, restarts and review updates in any order; `Database` is the object whose tables are updated statement by statement, each method proved to have exactly the effect on the snapshot that the theorems are about |
| `Articles`, `Conversations`, `Matching`, `Control` | what becomes of an article and of a request, told from what it says and from the rows, without the functions of the store: who shares a thread with whom, which patchset a mail joins, what a new patchset knows, what a cancellation or a restart does |
| `Series`, `MailRuns`, `Fetches` | whole series: the mails of one send-email run, or the patches of one fetch, arriving in any order and with repeats |
| `Histories` | the short histories in which the rules are broken |
| `Scheduler` | the worker pool of one patchset, as interleaved steps: permits, shared job stack, pause flag, joins and the final status |
| `ReviewLoop` | the review rows of one patch: claim, run, complete, retry, pause, crash, restart, rerun |
| `Outbox`, `AsyncCache`, `ResponseCache` | the mail leases, the time-limited caches of the API, the response cache of the AI provider and the token ledger behind it |
| `Sorting`, `Ranking` | the ranking of baseline trees by two stable sorts over counts kept in a hash map |
| `CleanJson`, `Mbox`, `Text`, `Preview`, `Subject`, `JsonValues`, `Bedrock` | transformations of texts and trees |
| `Nntp` | the NNTP high-water marks |
| `Prelude` | options, results, and the two row orders of SQLite that matter |

## Reading the results

- **Threads** are an online union structure. The reference is the undirected graph of all (message, anchor) pairs:
  two messages share a thread exactly when the graph connects them, so arrival order does not matter.
  `Conversations` says the same of single articles, from their headers, their fetch and their range.
- **Series** come together: for every store that has nothing to do with it, the mails of one run end in one patchset in
  any order (`RunGathers`), and with all of them there it is ready, complete and under the cover letter's subject
  (`RunIsReady`); likewise the patches of a fetch in the patchset that was made for it (`FetchGathers`,
  `FetchIsReady`). `Matching` has the rules for one mail over every store: it joins each patchset it belongs to
  (`BelongsIsJoined`) or was announced for (`AnnouncedIsJoined`), and no other (`JoinedMeetsRules`).
- **Patchsets** carry counters. In every reachable store they equal the rows they count, also after a patch moves
  between patchsets and after several patchsets are merged.
- Ingestion does not always do what its rules are for. For each way in which it does not, the exact condition is
  proved over all stores and submissions, and `Histories` gives a history from an empty store:
  - a patchset is left waiting although it is full (`CreatePatchsetStuckOnlyIfEmptySeries`, `ProcessStuckIff`,
    `RunNeverStuckIff`; `EmptySeriesWaits`);
  - a merge brings two patches with one index into one patchset, src/db.rs:2117-2127 (`IndicesKeptIff`;
    `PartComesTwice`), so that a patchset is made ready that does not hold every part (`FullIsCompleteIff`,
    `PromotedHoldsEveryPart`);
  - a known series length is lowered: by a singleton on the matching path, src/db.rs:2167, and by a part that announces
    any other shorter length on either path, as the first path guards against singletons only, src/db.rs:1874
    (`SeriesShortenedIff`; `SeriesCutShort` from three to one, `SeriesCutToTwo` from three to two);
  - a merge keeps the subject of the patchset with the lowest id, although the comment in `create_patchset` speaks of
    the best index (`SubjectIsBestIff`; `FirstSubjectIsLost`);
  - a patchset comes to go by a part for its cover letter, when a part answers that part and not the cover letter
    (`CoverChangedIff`; `DeepAnswerMovesCover`);
  - a placeholder made for a fetch has NULL author and counts (src/schema.sql:58-85). NULL is `None`, a comparison with
    it is not true, and a NULL author met in the second search is an error, as `row.get` makes it, so that an article
    in that thread loses its patch (`RefusedIff`, `AssembleStoresThePart`; `AnswerIsDropped`).
- **The response cache** does not hold its lock while the provider answers: two requests with one key can both miss, and
  the later answer overwrites the earlier one. `EntryStaysIff` and `AskedOnce` say when that cannot happen,
  `TwoMissesRace` is an instance; answers, statistics and prices hold in every interleaving. An insert into the
  **outbox** looks first and writes later, so that two inserts for one patch can leave two mails: `OnePerPatchIff`,
  `TwoInsertsRace`.
- **A cancellation** during a review is lost exactly when a review pauses or the verdict is decided on an older status:
  `CancelSurvivesIff`, with `PauseLosesCancellation` and `RaceLosesCancellation`.
- **NNTP**: the ingestor looks for `423` anywhere in the error text, which repeats the article's number. Article 4231,
  refused for any reason, is therefore passed over for good. `RefusalSkippedIff` and `SkippedRightlyIff` give the
  exact conditions and `NumberTakenForStatus` an instance.
- **Ranking** does depend on hash order when two branches of one URL tie: `HeuristicIndependentIffNoTies` is exact,
  and `TwoBranchesTie` is an instance.

## Model

| member | source | states |
|---|---|---|
| `Threads.EnsureThreadKeeps` | src/db.rs:1613-1641 | after asking for a message's thread the message is known and in that live thread; every other message is as it was |
| `Threads.MergeThreadsKeeps` | src/db.rs:1659-1702 | merging removes exactly the absorbed thread, loses no message, and leaves no message, patchset or subsystem link pointing at it |
| `Threads.CreateMessageRenames` | src/db.rs:1644-1729 | storing a message in a thread renames the threads of the messages it was with, changes no other message's thread, and no other message's content |
| `Threads.ResolveKeeps` | src/main.rs:686-830 | resolving an article's thread keeps all references live and all counts exact |
| `Threads.ResolveJoins` | src/main.rs:686-777 | an article's message and its anchor end in one thread, messages together stay together, and nothing is joined but the two threads |
| `Threads.PathStaysInThread` | src/db.rs:1598-1729 | if every edge lies within a thread, so do the ends of every path |
| `Threads.ResolveAddsEdge` | src/main.rs:686-777 | if the threads are the components of a graph, then after one more article they are the components of the graph with one more edge |
| `Threads.ResolveLinks` | src/db.rs:1678-1692 | the subsystem links after an article, link by link: renamed with their thread, plus the article's own |
| `Threads.ResolveFollowsMessages` | src/main.rs:822-830 | a thread stays linked to exactly the subsystems of the messages in it, through every merge |
| `Conversations.AnswerJoinsThread` | src/main.rs:722-735 | after every history a mail is in the thread of the message it answers, whether that has arrived or not |
| `Conversations.FetchSharesThread` | src/main.rs:708-716 | after every history the messages of one fetch or submission share a thread with each other and with its root (also src/main.rs:717-721) |
| `Conversations.ImportSharesThread` | src/main.rs:687-707 | after every history the messages of one imported range share a thread |
| `Conversations.SanitizeCleans` | src/main.rs:696-697 | the name of a range has no slash, colon, space or dot, and is the range itself exactly if that has none |
| `Conversations.LoneMessageAlone` | src/main.rs:736-747 | after every history a message that answers nothing and that no article names shares its thread with no other message |
| `Conversations.RunWaitsWithRoot` | src/db.rs:3859-3873 | after every history a patchset without an author is in the thread of the message it waits for, through every merge of threads (also src/db.rs:1659-1702) |
| `Conversations.FetchMeetsPlaceholder` | src/main.rs:708-721 | after every history what was fetched is in the thread of the patchset that still waits for it |
| `Patchsets.MergePatchsetsKeeps` | src/db.rs:2108-2158 | a merge of patchsets leaves every patch, review and link at a live patchset |
| `Patchsets.MergeOneMore` | src/db.rs:2116-2158 | the loop that merges one patchset after another does what merging all at once does |
| `Patchsets.AbsorbKeepsPatches` | src/db.rs:2121-2127 | no patch is lost or altered by a merge; exactly those of the matched patchsets move, all to the lowest id |
| `Patchsets.AbsorbKeepsReviews` | src/db.rs:2129-2135 | no review is lost or altered by a merge, and those of the matched patchsets move to the lowest id |
| `Patchsets.AbsorbKeepsSubsystems` | src/db.rs:2137-2150 | the target of a merge has the union of the subsystems of all matched patchsets, every other patchset its own |
| `Patchsets.AbsorbAddsUp` | src/db.rs:2108-2237 | the merged patchset's received parts are the sum of those it absorbed |
| `Patchsets.AbsorbKeeps` | src/db.rs:2108-2237 | a merge keeps the store consistent and leaves nothing stuck |
| `Patchsets.CreatePatchsetKeeps` | src/db.rs:1800-2257 | placing a message in a patchset keeps the store consistent, returns a live patchset, and on error changes nothing |
| `Patchsets.CreatePatchsetStuckOnlyIfEmptySeries` | src/db.rs:1800-2257 | from a store with nothing stuck, a submission leaves a full patchset `Incomplete` exactly when neither search finds a patchset, none of its thread is without an author, and it announces zero parts |
| `Patchsets.RefusedIff` | src/db.rs:1820-1947 | a submission is refused, and nothing changes, exactly when it is not found by its cover letter and its thread holds a patchset whose author is still NULL |
| `Patchsets.SeriesShortenedIff` | src/db.rs:1800-2257 | a known length gets lower exactly when the submission announces fewer parts and either is led to the patchset by its cover letter without being a singleton (src/db.rs:1870-1878), or ties matches together of which this is the lowest (src/db.rs:2160-2168); then it is the announced length |
| `Patchsets.IndicesKeptIff` | src/db.rs:1800-2257 | a submission keeps the part indices of every patchset distinct exactly when it merges nothing or no two patches of the matched patchsets share an index |
| `Patchsets.SubjectIsBestIff` | src/db.rs:1800-2257 | after a submission the subject index of its patchset is the best of all involved and of the arriving part exactly when nothing is merged, the arriving part is better than all matches, or the lowest match already had the best (src/db.rs:2152-2205) |
| `Patchsets.RemovedIff` | src/db.rs:2108-2158 | a submission removes a patchset exactly when it matches it together with an earlier one |
| `Patchsets.CoverChangedIff` | src/db.rs:1891-1898 | a patchset comes to be known by another cover letter exactly when a submission that names one is led to it, or ties matches together of which it is the lowest (also src/db.rs:2208-2215) |
| `Matching.BelongsIsJoined` | src/db.rs:1926-2106 | for every store and every mail no patchset was announced for: it joins each patchset it belongs to by sender, time, thread or send-email run, length, subject and room, however many parts a cover letter finds there; all of them are one patchset then, with the mail's length, author and cover letter |
| `Matching.LateCoverJoins` | src/db.rs:1974-1979 | a cover letter that comes last joins its series in the patchset that is already full (also src/db.rs:1993-1996) |
| `Matching.JoinedMeetsRules` | src/db.rs:1926-2106 | what the second search matches meets every one of those rules; of its run only the first patch is looked at |
| `Matching.AnnouncedIsJoined` | src/db.rs:1816-1924 | for every store and every mail: it goes to the first patchset open to it that its cover letter announces, else to the first that is known by the name its fetch was given; that row is filled in and nothing else changes |
| `MailRuns.RunGathers` | src/db.rs:1800-2352 | after any history whose patchsets it does not concern, the mails of one send-email run, in any order and with repeats, threaded under the cover letter or not, are held in one new patchset, and the others are as they were (also src/main.rs:861-977) |
| `MailRuns.RunIsReady` | src/db.rs:1800-2352 | with all of them there the patchset is `Pending`, has each part once, the announced length, the cover letter and its subject |
| `MailRuns.CoverComesLast` | src/db.rs:1974-1979 | from an empty store: two unthreaded parts and then their cover letter make one patchset, ready under the cover letter's subject |
| `MailRuns.DeepAnswerMovesCover` | src/db.rs:2208-2215 | a part that answers another part joins its run, and the patchset then goes by the answered part for its cover letter (also src/main.rs:853-859) |
| `Patchsets.PlacedWithoutCollision` | src/db.rs:1800-2257 | the patchset chosen for a part, by either search and after any merge, has the part's index free |
| `Patchsets.CreatePatchKeeps` | src/db.rs:2259-2352 | inserting or moving a patch keeps the store consistent, and on error changes nothing |
| `Patchsets.CreatePatchNeverStuck` | src/db.rs:2331-2337 | inserting or moving a patch leaves no full patchset waiting, neither the old nor the new one |
| `Patchsets.CreatePatchUpserts` | src/db.rs:2301-2311 | by message: the message now carries exactly this patch in this patchset, and every other message what it carried before |
| `Patchsets.CreatePatchIdempotent` | src/db.rs:2259-2352 | storing a patch a second time gives the same id and changes nothing |
| `Patchsets.CreatePatchMovesOnePart` | src/db.rs:2312-2330 | a patch that moves takes one part from the old patchset and adds one to the new; every other count stands |
| `Patchsets.CreatePatchKeepsIndices` | src/db.rs:2266-2284 | inserting or moving a patch never brings an index twice into a patchset |
| `Patchsets.AbsorbIndices` | src/db.rs:2117-2127 | a merge keeps indices distinct exactly when no two patches of the matched patchsets share one |
| `Patchsets.Pigeonhole` | src/db.rs:2331-2337 | distinct numbers in 1..n are at most n, and if they are n, they are all of them |
| `Patchsets.FullMeansComplete` | src/db.rs:2331-2337 | a full patchset whose indices are distinct and in range holds every part exactly once and has exactly as many as announced |
| `Patchsets.FullIsCompleteIff` | src/db.rs:2331-2337 | a full patchset holds each announced part exactly once and nothing else exactly when its indices are distinct and in range |
| `Patchsets.CreatePatchsetPromotesFull` | src/db.rs:1914-1917 | placing a message makes a patchset `Pending` only if it is the one returned and it is full (also src/db.rs:2232-2235) |
| `Patchsets.CreatePatchKeepsTotal` | src/db.rs:2312-2337 | storing a patch changes no announced length and turns no count into NULL |
| `Patchsets.CreateFetchingKeeps` | src/db.rs:3823-3888 | registering a fetch keeps the store consistent and returns a live patchset |
| `Fetches.NewRequest` | src/db.rs:3859-3888 | a request for something not known makes one patchset, `Fetching`, without author and counts, that waits in the thread of the message it waits for |
| `Fetches.KnownRequest` | src/db.rs:3835-3857 | a request for something known gives that patchset, by its id before its own name; only a failed one is set to be fetched again, and nothing else changes |
| `Fetches.FetchGathers` | src/main.rs:708-721 | once a fetch is asked for, its patches in any order and with repeats go to the patchset made for it, and the others are as they were (also src/db.rs:1816-1924) |
| `Fetches.FetchIsReady` | src/main.rs:853-977 | with every patch there that patchset is `Pending`, has each part once and the subject of the first patch |
| `Fetches.FailedFetchWaitsAgain` | src/db.rs:3889-3904 | a fetch that failed and is asked for again waits exactly as before (also src/db.rs:3823-3857) |
| `Fetches.FailureMarksWaiting` | src/db.rs:3889-3904 | a failed ingestion marks exactly the patchsets that wait under its name |
| `Articles.ArticleOpens` | src/main.rs:852-893 | what a new patchset knows from a mail, a fetched patch and an imported one: thread, cover letter, subject, author, date, length and index (also src/db.rs:2240-2257) |
| `Articles.AnswerJoinsCover` | src/main.rs:853-859 | a part goes to the first patchset open to it that is known by the message it answers (also src/db.rs:1816-1924) |
| `Articles.ImportJoinsRange` | src/main.rs:861-893 | a further patch of an imported range joins the others, whoever wrote it and whenever (also src/db.rs:1926-2106) |
| `Articles.ArticleLinks` | src/main.rs:939-943 | the patchset an article was put in is linked to the article's subsystems, and no other link is made or lost |
| `Articles.OthersMakeNothing` | src/main.rs:654-668 | what is no patch, or is from an ignored author, leaves patchsets, patches, reviews and links alone but for threads |
| `Articles.ArticleIsStored` | src/db.rs:1704-1729 | the message is stored with what the article says, over a placeholder too, and every other message keeps its content |
| `Ingestion.StepKeeps` | src/main.rs:617-983 | every event keeps the store consistent, and nothing gets stuck unless an empty series is announced (also src/db.rs:3778-3965) |
| `Ingestion.StepThreads` | src/main.rs:686-777 | every event keeps the threads equal to the components of the reply graph so far |
| `Ingestion.AssembleStoresThePart` | src/main.rs:861-977 | a part with its own index is stored as its message's patch in a live patchset, unless its thread holds a patchset with a NULL author that its cover letter does not lead past; then nothing changes. The collision error cannot occur for it |
| `Ingestion.RunConsistent` | src/db.rs:2108-2337 | in every reachable store received parts equal the patch rows, references are live and a message carries one patch (also src/inspector.rs:193-216) |
| `Ingestion.RunNeverStuck` | src/db.rs:1880-1924 | no history of non-empty series leaves a full patchset `Incomplete` (also src/db.rs:2219-2235, src/db.rs:2312-2337) |
| `Ingestion.ProcessStuckIff` | src/main.rs:617-983 | an article leaves a full patchset `Incomplete` exactly when it opens a new patchset with zero parts and brings no patch |
| `Ingestion.RunNeverStuckIff` | src/main.rs:617-983 | along a history nothing is ever stuck exactly when none of its articles does that |
| `Ingestion.RunThreads` | src/main.rs:686-777 | after every history two known messages share a thread exactly when the graph of (message, anchor) pairs connects them (also src/db.rs:1598-1729) |
| `Ingestion.ArrivalOrderIrrelevant` | src/main.rs:686-777 | two histories with the same pairs, in any order and with any repeats, agree on who shares a thread |
| `Ingestion.RunLinks` | src/db.rs:1678-1692 | after every history a thread is linked to exactly the subsystems brought by the messages now in it (also src/main.rs:822-830) |
| `Ingestion.RunLosesNothing` | src/db.rs:1644-1729 | along every history no message, patch or review disappears and no two messages are separated (also src/db.rs:2108-2337) |
| `Ingestion.StepKeepsCancelled` | src/db.rs:1909-1917 | nothing but a rerun, the review service's own writes or a failed fetch revives a cancelled patchset; it is gone exactly when an article matches it together with an earlier patchset (also src/db.rs:2108-2158, src/db.rs:2331-2337, src/db.rs:3778-3786) |
| `Ingestion.ProcessRemovesIff` | src/main.rs:617-983 | an article removes a patchset exactly when it merges it into an earlier one |
| `Ingestion.RunKeepsCancelled` | src/db.rs:3778-3786 | along every history a cancelled patchset that is left alone stays cancelled |
| `Control.CancelStops` | src/db.rs:3778-3786 | a cancellation, row by row: what waits, or with force is under review, is cancelled, and nothing else changes |
| `Control.RerunAsksAgain` | src/db.rs:3796-3814 | a rerun makes one patchset wait for one review more, whatever its status |
| `Control.FailedWaitAgain` | src/db.rs:3788-3794 | exactly what failed or could not be applied waits again |
| `Control.StartUpResets` | src/db.rs:3936-3965 | at start-up exactly what was under review waits again, patchsets and reviews |
| `Control.ReviewOpens` | src/db.rs:723-760 | a review is opened in a new row for a live patchset, and waits |
| `Control.ServiceSets` | src/db.rs:807-880 | the service's own writes change the status of one review or one patchset and nothing else (also src/db.rs:3743-3752) |
| `Ingestion.ProcessPromotesFull` | src/db.rs:1914-1917 | an article makes a patchset `Pending` only if it is full when the article is done (also src/db.rs:2232-2235, src/db.rs:2331-2337) |
| `Ingestion.PromotedHoldsEveryPart` | src/db.rs:1880-1924 | at that moment it holds each announced part exactly once and nothing else exactly when its indices are distinct and in range (also src/db.rs:2219-2235, src/db.rs:2312-2337) |
| `Ingestion.LonePatchIsReady` | src/main.rs:617-983 | a lone patch by mail that belongs to no patchset of the store, whatever else is in it, is `Pending` with its one part when the article is done |
| `Histories.SeriesCutShort` | src/db.rs:2160-2168 | from an empty store: a cover letter for three parts, part 2, and a lone "[PATCH]" in reply to the cover letter make the patchset `Pending` with length 1, parts 1 and 3 of the series missing |
| `Histories.SeriesCutToTwo` | src/db.rs:1870-1878 | from an empty store: the same cover letter and part 2, and then a "[PATCH 1/2]" in reply to the cover letter make the patchset `Pending` with length 2, part 3 of 3 missing |
| `Histories.PartComesTwice` | src/db.rs:2117-2127 | from an empty store: part 1 of 2 sent twice in one send-email run, and then the cover letter, make the patchset `Pending` with part 1 twice and no part 2 |
| `Histories.EmptySeriesWaits` | src/db.rs:2240-2257 | from an empty store: a cover letter announced as 0/0 leaves a patchset `Incomplete` that has all its parts |
| `Histories.AnswerIsDropped` | src/db.rs:1943-1947 | from an empty store: a fetch is requested by a message id and a patch arrives in reply to that message; the message is kept and the patch dropped |
| `Histories.FirstSubjectIsLost` | src/db.rs:2152-2205 | from an empty store: part 2, part 1 in another run, and part 3 in reply to part 1 but of the first run give one patchset with all three parts under the subject of part 2 |
| `Database.Database.EnsureThreadForMessage` | src/db.rs:1613-1641 | the statements have the effect of the snapshot operation |
| `Database.Database.CreateMessage` | src/db.rs:1644-1729 | the statements that merge two threads and upsert the message have the effect of renaming one thread everywhere |
| `Database.Database.CollectMatches` | src/db.rs:1930-2106 | the scan finds exactly the patchsets that match, and fails exactly when a candidate has no author |
| `Database.Database.MergeMatches` | src/db.rs:2108-2158 | the merge loop moves everything of all matches to the lowest and yields the lowest subject index among them |
| `Database.Database.CreatePatchset` | src/db.rs:1800-2257 | the whole operation, both searches, merge and insert, has the effect and result of the snapshot operation |
| `Database.Database.CreatePatch` | src/db.rs:2259-2352 | the upsert, both recounts and the promotion have the effect and result of the snapshot operation |
| `Database.Database.CreateFetchingPatchset` | src/db.rs:3823-3888 | both look-ups and the insert have the effect and result of the snapshot operation |
| `Database.Database.CancelPatchset` | src/db.rs:3778-3786 | the new store, and true exactly when a row changed |
| `Database.Database.RerunPatchset` | src/db.rs:3796-3814 | the new store |
| `Database.Database.ResetReviewingStatus` | src/db.rs:3936-3965 | the new store, patchsets and review rows |
| `Database.Database.ProcessParsedArticle` | src/main.rs:617-983 | one article has the effect that the run theorems are about, and keeps the store consistent |
| `Scheduler.StepKeeps` | src/reviewer.rs:547-769 | every enabled step of any worker or of the coordinator keeps the pool's invariant |
| `Scheduler.PermitsConserved` | src/reviewer.rs:622-674 | permits held plus free permits never change |
| `Scheduler.RunInvariant` | src/reviewer.rs:547-769 | in every interleaving pops come in original order, each once, and are with the queue exactly the valid jobs; each popped job has one result or one worker; extra workers never outnumber the jobs; permits add up |
| `Scheduler.RunVerdict` | src/reviewer.rs:752-769 | the verdict is written only after every job was reviewed and none paused; it is `Reviewed` exactly when every review succeeded; a cancellation the coordinator has seen stays |
| `Scheduler.RunPaused` | src/reviewer.rs:740-750 | after all workers are joined the flag is up exactly when some review paused; then the patchset goes back to `Pending`, otherwise all jobs were reviewed |
| `Scheduler.PauseStopsWorkers` | src/reviewer.rs:636-638 | in every interleaving, once the pause flag is up a worker that had not passed its check, or was not there yet, takes no job any more, and no more jobs are taken than workers were between check and pop (also src/reviewer.rs:690-692) |
| `Scheduler.RunSpawns` | src/reviewer.rs:622-685 | extra workers only for ten patches or more with two jobs or more; then spawning ends exactly when no permit is free or there are as many extra workers as queued jobs |
| `Scheduler.CancelSurvivesIff` | src/reviewer.rs:740-769 | in every interleaving a cancellation during the review that nothing outside overwrites is the final status exactly when no review paused and the coordinator had not read the status before it |
| `Scheduler.PauseLosesCancellation` | src/reviewer.rs:740-750 | a run in which a patchset cancelled while it is reviewed ends `Pending`, because the window closed |
| `Scheduler.RaceLosesCancellation` | src/reviewer.rs:752-769 | a run in which a patchset cancelled between reading the status and writing the verdict ends `Reviewed` |
| `Scheduler.StepDecreases` | src/reviewer.rs:621-731 | every step of the coordinator's own brings it closer to its end |
| `Scheduler.NeverStuck` | src/reviewer.rs:621-769 | until it is done the coordinator has a step to take |
| `Scheduler.RunEnds` | src/reviewer.rs:621-769 | in every interleaving the coordinator takes a bounded number of steps |
| `ReviewLoop.PatchReviews.ReviewOnce` | src/reviewer.rs:1223-1616 | one pass of the loop: the row, the patch status, the verdict and whether the tool ran |
| `ReviewLoop.PatchReviews.ProcessPatchReview` | src/reviewer.rs:1134-1617 | the retry loop does what the recursive definition says |
| `ReviewLoop.PassPromises` | src/reviewer.rs:1223-1616 | a pass that owns the only active row leaves at most one active, touches no completed row, and adds at most one review |
| `ReviewLoop.CallPromises` | src/reviewer.rs:1134-1617 | a call keeps at most one active row, leaves none in review unless the process died, runs the tool at most max_retries + 1 times, fails only with the patch marked failed, and never passes the target |
| `ReviewLoop.SuccessMeansProgress` | src/reviewer.rs:1134-1150 | a successful call below the target adds exactly one completed review (also src/reviewer.rs:1382-1494) |
| `ReviewLoop.ReviewAfterRetries` | src/reviewer.rs:1608-1613 | as long as a retry is left a failed attempt is followed by the next: if attempt n brings a review the call is a success after n + 1 runs, with n failed rows and the reviewed one (also src/reviewer.rs:1375-1381, src/reviewer.rs:1382-1494) |
| `ReviewLoop.FailedIffGaveUp` | src/reviewer.rs:1134-1617 | a call that wants a review reports a failed one exactly when its last allowed attempt fails, or a result has no review content |
| `ReviewLoop.GivesUp` | src/reviewer.rs:1527-1534 | then the tool ran for every attempt, each left its failed row, and the patch is marked failed (also src/reviewer.rs:1571-1578) |
| `ReviewLoop.PausedWhenClosed` | src/reviewer.rs:1223-1283 | when the window closes, before the claim, after it or in the tool, the failed rows stay, a claimed row is pending again and the patch's status is as it was (also src/reviewer.rs:1580-1596) |
| `ReviewLoop.SkippedWithoutAi` | src/reviewer.rs:1495-1512 | without AI an empty review skips the row and the patch |
| `ReviewLoop.NotWanted` | src/reviewer.rs:1134-1212 | a call with enough reviews, a failure to keep in view or ignored files only runs no tool, and what it leaves |
| `ReviewLoop.RestartResumes` | src/db.rs:3936-3965 | after a restart the interrupted review is the one the next call takes up |
| `ReviewLoop.RunInvariant` | src/reviewer.rs:1134-1617 | in every run with retries, pauses, crashes, restarts and reruns: at most one pending or running row, and at most as many completed reviews as asked for (also src/db.rs:703-721, src/db.rs:3936-3965) |
| `ReviewLoop.RunHistory` | src/db.rs:807-880 | completed review rows are never touched again |
| `ReviewLoop.FailureIsSticky` | src/reviewer.rs:1152-1163 | a failure without an AI interaction makes every later call that wants a review fail without running the tool (also src/db.rs:791-805) |
| `Outbox.EmailOutbox.LockPendingEmail` | src/db.rs:4035-4076 | leases one pending mail, whichever the query picks, or none exactly when none is pending |
| `Outbox.EmailOutbox.SweepGhostEmails` | src/db.rs:4093-4100 | takes back exactly the leases older than ten minutes, and counts them |
| `Outbox.RunInvariant` | src/db.rs:3988-4100 | in every history a mail has a lock time exactly while it is being sent |
| `Outbox.OnePerPatchIff` | src/db.rs:3988-4033 | in every history, with the look-up and the write of an insert as separate steps, every patch has at most one mail exactly as long as no insert for it writes between the look-up and the write of another |
| `Outbox.TwoInsertsRace` | src/db.rs:3988-4033 | two inserts for one patch that both look before either writes leave two mails |
| `Outbox.WriteAddsMail` | src/db.rs:4017-4033 | a write adds one mail with its patch, status and body, not locked, and changes no other |
| `Outbox.MutedNeverSent` | src/db.rs:4035-4043 | a mail not written as pending stays and is never locked for sending |
| `Outbox.SweepGivesBack` | src/db.rs:4093-4100 | a sweep gives back exactly the leases older than 600 seconds |
| `Outbox.RowsStay` | src/db.rs:3988-4100 | a mail stays for its patch with its body, and once sent or failed it is never pending or sending again |
| `Outbox.LocksAreFarApart` | src/db.rs:4035-4100 | two locks of one mail are more than 600 seconds apart |
| `Outbox.RelockMeansAbandoned` | src/db.rs:4035-4100 | between two locks of a mail a sweep ran and nobody marked it sent or failed |
| `AsyncCache.RunInvariant` | src/api.rs:55-83 | in every interleaving an entry is for its key and fetched after the last invalidation, and the write lock is held exactly by the fetching call (also src/api.rs:99-130) |
| `AsyncCache.EntryWasFetched` | src/api.rs:73-78 | in every run an entry holds the value brought by a fetch for its key, since the moment that fetch ended (also src/api.rs:117-125) |
| `AsyncCache.ReturnedWasFetched` | src/api.rs:55-79 | in every interleaving a returned get holds the value some fetch for its key brought: its own, or one that ended less than the time to live before the get looked (also src/api.rs:99-126) |
| `AsyncCache.FreshAfterInvalidation` | src/api.rs:55-83 | a get that starts after an invalidation finished returns the value brought by a fetch for its own key that began after that invalidation, its own fetch or younger than the time to live (also src/api.rs:99-130) |
| `AsyncCache.OneFetchAtATime` | src/api.rs:68-76 | at most one fetch runs per cache (also src/api.rs:112-126) |
| `AsyncCache.NoNeedlessFetch` | src/api.rs:61-76 | without an invalidation a key is fetched again only after the time to live (also src/api.rs:105-126) |
| `ResponseCache.SameKeyIff` | src/ai/cache.rs:100-110 | two requests share a cache entry exactly when they differ in the context tag and in thought signatures only, at any depth (also src/ai/mod.rs:538-554) |
| `ResponseCache.IgnoredNames` | src/ai/cache.rs:100-110 | the context tag and the two spellings of signatures make no difference to the key (also src/ai/mod.rs:538-554) |
| `ResponseCache.ScrubIdempotent` | src/ai/mod.rs:538-554 | scrubbing twice is scrubbing once |
| `ResponseCache.CachingProvider.GenerateContent` | src/ai/cache.rs:115-184 | a call that nothing comes between is its look-up and then, if that missed, its store: the new table and counters, and the answer |
| `ResponseCache.RunAnswers` | src/ai/cache.rs:115-184 | in every interleaving of look-ups, answers, failures, lost writes and restarts a hit is the wrapped provider's answer with its prompt credited, a successful miss that answer itself, and only a miss can fail |
| `ResponseCache.AnswersAsInner` | src/ai/cache.rs:115-184 | every answer is the wrapped provider's, up to `cached_tokens` |
| `ResponseCache.OnlyWaitingCallsAreSent` | src/ai/cache.rs:115-184 | once a key is stored it stays stored until it is reaped, and the only requests for it still sent are those that were waiting already |
| `ResponseCache.EntryStays` | src/ai/cache.rs:62-79 | an entry stays as it is until it is reaped, and every later request for it is a hit, provided no call for its key is waiting for the provider (also src/ai/cache.rs:115-184) |
| `ResponseCache.EntryStaysIff` | src/ai/cache.rs:115-184 | whatever happens short of reaping the entry stays as it is, exactly when no call for its key is waiting |
| `ResponseCache.TwoMissesRace` | src/ai/cache.rs:115-184 | two requests with one key that both look before either is answered are both sent, and the second answer overwrites the first |
| `ResponseCache.AskedOnce` | src/ai/cache.rs:115-184 | a question answered and written is not sent to the provider again until it is reaped, except by the calls already waiting when it was written |
| `ResponseCache.StatisticsAddUp` | src/ai/cache.rs:131-147 | in every interleaving of a session each look-up has one reply or is waiting, and every hit is counted once, in one of the two hit counters, and so are its saved tokens |
| `ResponseCache.SavedTokensAddUp` | src/ai/cache.rs:131-147 | in every interleaving of a session the counters of saved tokens come to the prompt and completion tokens of the hits, as the callers see them |
| `ResponseCache.HitCounts` | src/ai/cache.rs:131-147 | a hit counts for this session exactly if its entry was written since the session began |
| `ResponseCache.HitCreditsPrompt` | src/ai/cache.rs:155-158 | a hit reports the prompt as cached on top of what the provider had cached, and changes no other figure |
| `ResponseCache.OpenReaps` | src/ai/cache.rs:62-79 | opening drops exactly the entries older than the time to live in days |
| `ResponseCache.SpentLeavesCached` | src/reviewer.rs:1887-1891 | what results are charged and the cached part of their prompts are together all their tokens |
| `ResponseCache.Deliver` | src/reviewer.rs:1885-1914 | everything delivered stays within both non-zero budgets, delivery stops exactly at the first result that leaves one, and the error names the budget and the amount |
| `ResponseCache.RunPrice` | src/ai/cache.rs:155-158 | in every interleaving the ledger of a review, whichever of the replies it receives, comes to the completion tokens of its hits plus the full price of its answered misses (also src/reviewer.rs:1887-1892) |
| `Sorting.SortOrdered` | src/baseline.rs:377 | a stable sort orders by its key and keeps the previous order among equals (also src/baseline.rs:493) |
| `Sorting.OneListing` | src/baseline.rs:377 | a set has only one listing that respects a strict order (also src/baseline.rs:493) |
| `Sorting.RemoveDuplicates` | src/baseline.rs:495-502 | the loop keeps exactly the elements of its input, each once, in the order of their first occurrences |
| `Ranking.CountTrees` | src/baseline.rs:341-370 | the table counts exactly the trees of the matching entries, each as often as it was hit |
| `Ranking.ResolveSubsystemHeuristic` | src/baseline.rs:336-503 | the loops compute the heuristic for some order the hash map may have |
| `Ranking.EntryCovers` | src/baseline.rs:346-357 | an entry covers a file exactly when it lists the file or a directory above it with its slash |
| `Ranking.FirstSubsystemIs` | src/baseline.rs:359-364 | the subsystem is that of the first entry that covers the first covered file |
| `Ranking.PrefixWords` | src/baseline.rs:404-415 | the words of the subject's prefixes: each in lower case, and the pieces between its dashes but "next" and "net" |
| `Ranking.ScoreAddsUp` | src/baseline.rs:420-488 | a score is ten per hit, fifty per prefix the tree is the home of, a hundred if any prefix occurs in it, what its next-ness is worth, and ten per keyword shared |
| `Ranking.NextDecides` | src/baseline.rs:440-468 | between branches of one URL that the words do not tell apart, "next" in the subject decides by a hundred, with the mptcp branches the other rule, beside the hits |
| `Ranking.NamedTreeWins` | src/baseline.rs:400-490 | a tree the subject names and whose next-ness fits outranks one that has neither and no more hits, whatever the keywords |
| `Ranking.CandidatesAreHits` | src/baseline.rs:493-503 | every candidate is a counted tree under the name of its remote or a suggested one, and every counted tree is a candidate |
| `Ranking.MemoryManagement` | src/baseline.rs:379-398 | a memory-management patch gets mm-new, mm-unstable and mm-stable of the URL on top, in this order |
| `Ranking.HeuristicRanksAllHits` | src/baseline.rs:376-503 | outside the memory-management case: every tree of every matched entry exactly once, by score, count and URL, and the deduplication removes nothing |
| `Ranking.TieKeepsInputOrder` | src/baseline.rs:377 | of any two tied trees the one the hash map lists first comes first (also src/baseline.rs:493) |
| `Ranking.TopUrlIndependent` | src/baseline.rs:377-381 | the URL on top of the first sort does not depend on hash order |
| `Ranking.MmIndependent` | src/baseline.rs:379-398 | the memory-management result never depends on hash order |
| `Ranking.HeuristicIndependentIffNoTies` | src/baseline.rs:376-503 | otherwise the result is independent of hash order exactly when no two branches of one URL agree on count and score |
| `Ranking.DistinctUrlsIndependent` | src/baseline.rs:376-503 | when the matched URLs are distinct the result is independent of hash order, in the memory-management case and otherwise |
| `Ranking.TwoBranchesTie` | src/baseline.rs:376-503 | one entry naming two branches of one URL, and one file of it touched: the result does depend on hash order |
| `CleanJson.CleanJsonString` | src/utils.rs:43-85 | the character loop computes the recursive definition |
| `CleanJson.CleanPreservesMeaning` | src/utils.rs:43-85 | a reader that takes raw control characters as they are reads the same structure and string contents before and after |
| `CleanJson.CleanHasNoRawControl` | src/utils.rs:59-69 | afterwards no string has a raw control character, except directly after a backslash |
| `CleanJson.CleanIsIdentityIff` | src/utils.rs:43-85 | a text is left alone exactly when it has no raw control character in a string |
| `CleanJson.CleanIdempotent` | src/utils.rs:43-85 | cleaning twice is cleaning once |
| `Mbox.SplitMbox` | src/ingestor.rs:575-596 | the loop computes the recursive split |
| `Mbox.SeparatorIff` | src/ingestor.rs:598-605 | a line separates messages exactly when it begins with "From " and has two colons |
| `Mbox.SplitDropsOnlySeparators` | src/ingestor.rs:575-605 | for every input the pieces put together are the input without its separator lines, and no piece is empty |
| `Mbox.SplitUndoesWrite` | src/ingestor.rs:575-605 | splitting what an mbox writer wrote gives its messages back |
| `Mbox.SplitWriteSplit` | src/ingestor.rs:575-605 | for every input the pieces can be written back, and splitting that gives the same pieces |
| `Preview.LongestFitIsLongest` | src/ai/kiro_cli.rs:212-225 | no longer suffix on a character boundary fits the limit |
| `Preview.StderrPreview.TrimStderrPreview` | src/ai/kiro_cli.rs:212-225 | draining to the first boundary past the excess leaves the longest suffix that fits |
| `Preview.StderrPreview.RecordStderrLine` | src/ai/kiro_cli.rs:198-210 | the preview after a line |
| `Preview.PreviewIsEndOfLog` | src/ai/kiro_cli.rs:198-225 | after any lines the preview is the longest fitting suffix of the whole log: trimming at every line is trimming once |
| `Preview.PreviewEndsLog` | src/ai/kiro_cli.rs:198-225 | the preview is an end of the log of all non-blank lines, one to a line, of at most 4096 bytes, and one character more would not fit |
| `Subject.ComputeCleanSubject` | src/patch.rs:364-391 | the loop ends and computes the recursive definition |
| `Subject.ResultIsClean` | src/patch.rs:364-391 | the result is trimmed, starts with no marker and has no opening bracket followed by a closing one on its line |
| `Subject.CleanIsIdentityIff` | src/patch.rs:364-391 | a subject is left alone exactly when it is clean |
| `Subject.CleanIdempotent` | src/patch.rs:364-391 | cleaning twice is cleaning once |
| `Subject.MarkersIgnored` | src/patch.rs:372-388 | a leading reply or forward marker, in any case, makes no difference |
| `Subject.RepliesAndForwards` | src/patch.rs:372-388 | the markers are those of replies and forwards in English, German and Chinese |
| `Subject.TagsIgnored` | src/patch.rs:365-369 | a leading bracketed tag makes no difference |
| `Bedrock.JsonSurvives` | src/ai/bedrock.rs:33-81 | every JSON value with finite numbers is the same after the trip to a document and back |
| `Bedrock.DocumentSurvivesIff` | src/ai/bedrock.rs:33-81 | a document survives the trip the other way exactly when it has no non-finite float and no mislabelled integer |
| `Bedrock.TranslateMessages` | src/ai/bedrock.rs:190-287 | the loop with its pending buffer computes the recursive translation, and the rewrite of the last message appends the cache point |
| `Bedrock.RequestBlocksInOrder` | src/ai/bedrock.rs:194-268 | translation succeeds exactly when every message is acceptable, and then carries exactly the blocks of the messages in order |
| `Bedrock.ConversationSurvives` | src/ai/bedrock.rs:190-287 | of every conversation the API hears exactly what was said, by whom and in order, tool answers with their call's id and an empty object for no answer, with caching or without; a request is refused exactly when a model message says and calls nothing or a tool answer names no call |
| `Bedrock.TranslateResponse` | src/ai/bedrock.rs:342-400 | the loop over the blocks collects texts and calls in order |
| `Bedrock.AnswerText` | src/ai/bedrock.rs:390-394 | the texts of an answer are put together with nothing between them |
| `Bedrock.AssistantTurnSurvives` | src/ai/bedrock.rs:227-251 | an assistant message sent to the API and read back by the response translation has its content and every call with its id, name and arguments, with a cache point or without (also src/ai/bedrock.rs:342-400) |
| `Bedrock.CachingOnlyAddsCachePoints` | src/ai/bedrock.rs:268-287 | caching succeeds exactly when not caching does, and erasing cache points gives the same turns |
| `Bedrock.LastTurnIsCached` | src/ai/bedrock.rs:268-287 | with caching the last turn, and no other, has a cache point after its blocks |
| `Bedrock.EachToolRunIsOneTurn` | src/ai/bedrock.rs:194-268 | every run of tool messages is one user turn, every other spoken message a turn of its own |
| `Bedrock.AlternationIff` | src/ai/bedrock.rs:192-268 | the turns alternate strictly exactly when no spoken message follows one that would need the same turn role, tool results after tool results excepted |
| `Bedrock.TranscriptAlternates` | src/ai/bedrock.rs:192-287 | a transcript User (Assistant Tool+)* [Assistant] alternates strictly, with caching or without |
| `Nntp.Search` | src/ingestor.rs:430-432 | finds the text exactly when it occurs |
| `Nntp.RefusalSkippedIff` | src/ingestor.rs:429-440 | a refused article is passed over exactly when 423 occurs in the response or in the article's number (also src/nntp.rs:121-127) |
| `Nntp.SkippedRightlyIff` | src/ingestor.rs:429-440 | that is what the status code asks exactly when the code is 423 or 423 is in neither |
| `Nntp.NumberTakenForStatus` | src/ingestor.rs:429-440 | article 4231, refused with code 400, is passed over for good (also src/nntp.rs:121-127) |
| `Nntp.DrainStops` | src/ingestor.rs:411-442 | a visit moves the mark to just before the first article that does not pass, and hands over in order exactly the articles delivered up to there, and one more if only its mark was lost |
| `Nntp.CaughtUp` | src/ingestor.rs:391-442 | a visit in which everything passes ends at the server's highest number |
| `Nntp.VisitStarts` | src/ingestor.rs:391-406 | a first visit starts 100 articles below the highest number after a bootstrap and 4000 without, or at the first article; a later one goes on from the mark |
| `Nntp.VisitGoesOnIff` | src/ingestor.rs:372-442 | the cycle goes on to the next group unless the store or a hand-over failed; an error that may pass by, or a group that cannot be selected, is left for next time |
| `Nntp.Ingestor.FetchPending` | src/ingestor.rs:411-442 | the loop computes that definition |
| `Nntp.Ingestor.ProcessNntpCycle` | src/ingestor.rs:370-447 | the cycle visits the groups in turn, stopping at a visit that ends it |
| `Nntp.RunInvariant` | src/ingestor.rs:370-447 | over every run with errors and crashes, in every group: each article from the start to the mark was handed over or passed over, nothing beyond mark + 1 went out, in order, the mark never goes back, and a positive mark keeps its start |
| `Nntp.RunSettles` | src/ingestor.rs:411-442 | over every run an article handed over was delivered by the server on some visit to its group, and one passed over was answered on some visit with an error that counts as missing |
| `Nntp.RunOnce` | src/ingestor.rs:411-442 | an article goes out twice only if the storing of a mark failed |

## Left out

- SQL, migrations, transactions, statistics and JSON views: tables are maps and each operation is one atomic step, except in the pool, the caches of the API, the calls of the response cache and the inserts of the outbox, whose steps interleave.
- The worker pool, the caches of the API and the interleaved calls of the response cache and the outbox are steps on values, because what matters there is how concurrent steps interleave; update in place is not captured for them.
- Columns no modelled decision reads: recipients, baselines, parser version, filters, embargo, model names, logs. The links of messages and patches to subsystems and mailing lists are not kept.
- The foreign key from a patchset's cover letter to a message, and errors of the database other than a missing patchset and a NULL author; a lost write is an input of the caches and the NNTP marks only.
- An article whose metadata is missing or whose anchor look-up fails changes nothing and is not an event. Groups are modelled by kind; a mailing list whose name begins with `git-import` but lacks the colon is not one of them.
- The readers of versions, prefixes and addresses in subjects and author lines are functions the results hold for all of; `LIMIT 1` without an order is the lowest row id, as SQLite's scan gives it. The length of a message-id prefix is counted in characters.
- Mail parsing, date parsing, git commands, worktrees and remote fetching; the choice of a baseline before the pool starts, and the status `Failed To Apply` written when there is none (src/reviewer.rs:770-789), which is a `StatusSet` event of `Ingestion`.
- `ReviewLoop` follows one patch with one baseline that stays in its patchset; findings, notifications and tool usage rows are left out, and the tool's result is reduced to what the loop branches on.
- RunGathers: parts answer the cover letter or nothing, and patchsets of the store that might match are of other senders, days or lengths, or complete; DeepAnswerMovesCover and PartComesTwice show what happens otherwise.
- ImportJoinsRange: one further patch of a range, not a range in any order; two patches of one index are kept apart there as everywhere.
- Panics of worker tasks (a handle that cannot be awaited adds no failures) and cancelled futures.
- A clock that jumps back, and token counts past the machine word.
- SHA-256 is taken to be injective on canonical requests, and stored responses to parse back as they were.
- `translate_request` also carries the system prompt, the tool list, the inference settings and extra fields; with caching on, each of the first two gets a cache point of its own. Only the messages are modelled.
- Redaction of secrets before a line reaches the preview; `extract_text_content`.
- `resolve_candidates` beyond the heuristic (explicit base commits and configured remotes), and the parser of the MAINTAINERS file.
- Scheduler hours, mail header formatting, severity sorting and number formatting.
- Bootstrapping from git archives and the list of tracked groups.
