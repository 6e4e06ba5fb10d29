# JobsCrawler ingestion pipeline in Dafny

This project models `GhanaJobsService` from the JobsCrawler service. One run of
the crawler (`BackgroundWorker`) does five things in order:

1. It walks the paginated job board listing (`ScrapJobs`) and builds one `Job`
   per listing item. Each job's id is derived from the item's `data-href`.
2. It reads the CSV ledger of jobs already seen (`ReadJobsFromCsv`), dropping
   the rows whose `JobId` is "JobId". Every append re-emits a header line, and
   the model takes such a line to be one of these rows.
3. It keeps only the scraped jobs whose id is not yet in the ledger
   (`FilterOnlyNewJobs`).
4. It appends those jobs to the ledger (`WriteJobsToCsv`).
5. It saves them to the database (`SaveJobs`).

Modules:

- `Wrappers`: `Option`, which models C#'s nullable `string?`.
- `JobModel`: the `Job` record, the header line as the model reads it back, and the id
  projections `IdsOf` and `IdSet`.
- `JobIdentifier`: `SplitOnDash`, `JoinWithDash` and `DeriveJobId`, which is
  `dataHref.Split("-").Last()`.
- `Listing`: a listing page is abstracted as a `Response`: either `Success`
  holding a `Document` (item nodes plus the active-pager flag) or an error
  status.
  - `Loaded` and `Collected` specify the walk.
  - `ScrapJobs` is the `while (true)` loop, proved against them.
- `NoveltyFilter`: LINQ `Except` and the filter, proved equal to the reference
  definition `NovelJobs`.
- `CsvLedger`: the ledger as the sequence of rows below the file's first header
  line, the header-row filter, and the append.
- `Service`: the class `GhanaJobsService`. Its two fields are `ledger` (the CSV
  file) and `store` (the database). Its methods update them. The module also
  holds the lemmas about whole runs.

The network is the parameter `fetch: nat -> Response`, the response to the
request for page `n`. The clock is the parameter `today`.

The source's walk has no upper bound. `ScrapJobs` and `BackgroundWorker`
therefore take a ghost page number `last` and require `WalkStopsAt(fetch, last)`:
the document held after page `last` lacks the marker, and the document held
after every earlier page has it. A site for which no such page exists keeps the
source looping forever, and the model does not describe it.

Points about the code's own behaviour that the model keeps:

- **Connection failures.** `GetAsync` at line 66 is not guarded. A connection
  failure throws and aborts the whole run; only a non-success status is
  logged and passed over (lines 92-95).
- **Seen ids.** Novelty is decided against the ids read from the CSV ledger
  (lines 28-29). The database is only written to, never read.
- **Two separate writes.** The ledger is appended (line 30) before the jobs are
  saved to the database (line 31). The two writes are separate steps, not one
  transaction.

## Model

| member | source | states |
|---|---|---|
| JobModel.IdsOf | Service/GhanaJobsService.cs:142-143 | the id list has one entry per job, in order, and entry `i` is job `i`'s `JobId` |
| JobModel.IdSetAppend | Service/GhanaJobsService.cs:142 | the ids of two job lists together are the union of their ids |
| JobIdentifier.SplitOnDash | Service/GhanaJobsService.cs:82 | splitting yields at least one piece and no piece contains a dash; it yields exactly one piece, the whole string, precisely when the string has no dash |
| JobIdentifier.JoinSplit | Service/GhanaJobsService.cs:82 | joining the pieces of a split with dashes gives back the string, so the split loses nothing |
| JobIdentifier.SplitJoin | Service/GhanaJobsService.cs:82 | splitting the dash-join of dash-free pieces gives back those pieces |
| JobIdentifier.SplitPrefix | Service/GhanaJobsService.cs:82 | splitting `w-t` with `w` dash-free gives `w` followed by the pieces of `t` |
| JobIdentifier.LastPieceIsSuffix | Service/GhanaJobsService.cs:82 | the last piece of the split is a suffix of the string, and a dash precedes it unless it is the whole string |
| JobIdentifier.DeriveJobId | Service/GhanaJobsService.cs:82 | the job id of a `data-href`; `DeriveJobIdIsLastPiece` proves it is `Split("-").Last()`, and `DeriveJobIdIsSuffixAfterLastDash`, `DeriveJobIdWithoutDash` and `DeriveJobIdOfDashed` prove it is the text after the last dash |
| JobIdentifier.DeriveJobIdIsSuffixAfterLastDash | Service/GhanaJobsService.cs:81-82 | the derived id has no dash, is a suffix of `data-href`, and starts either at the beginning or right after a dash |
| JobIdentifier.DeriveJobIdIsLastPiece | Service/GhanaJobsService.cs:82 | the derived id equals the last element of the split on `-` |
| JobIdentifier.DashFreeSuffixIsUnique | Service/GhanaJobsService.cs:82 | there is only one dash-free suffix that starts at the beginning or after a dash, so "the text after the last dash" is well defined |
| JobIdentifier.DeriveJobIdWithoutDash | Service/GhanaJobsService.cs:82 | with no dash in `data-href`, the id is the whole string |
| JobIdentifier.DeriveJobIdOfDashed | Service/GhanaJobsService.cs:81-82 | for any prefix, the id of `prefix-id` with `id` dash-free is `id` |
| Listing.HrefOf | Service/GhanaJobsService.cs:81 | the `data-href` attribute, or "" when absent; `MissingHrefGivesEmptyId` states the missing case |
| Listing.JobFromNode | Service/GhanaJobsService.cs:77-87 | the job built for an item has its `JobId` derived from the `data-href` (or from "" when absent) and its `Source` set to the `data-href` (or "" when absent), carries title, recruiter, description and region over, leaves `Industry` and `ExpiryDate` null, and is dated today |
| Listing.JobIdIsLastPieceOfHref | Service/GhanaJobsService.cs:81-85 | the `JobId` of a built job is the last piece of its `data-href` split on `-` |
| Listing.MissingHrefGivesEmptyId | Service/GhanaJobsService.cs:81-85 | an item without a `data-href` attribute is read as "" and gets the `JobId` "" |
| Listing.JobsOfNodes | Service/GhanaJobsService.cs:75-89 | one job per item node, with job `k` built from node `k` |
| Listing.PageJobs | Service/GhanaJobsService.cs:67-95 | what one fetched page adds: its nodes' jobs on success, nothing on an error status; `CollectedPage` states both cases |
| Listing.Loaded | Service/GhanaJobsService.cs:59-70 | the document held after pages 1..p; `LoadedIsLastSuccess` and `LoadedBeforeAnySuccess` prove it is the last page that loaded, or the empty document |
| Listing.Collected | Service/GhanaJobsService.cs:58-104 | the jobs of pages 1..p in page order; `ScrapJobs` is proved to return it, and `CollectedPage`, `CollectedLength` and `CollectedGrowsAtEnd` state its shape |
| Listing.PagesUpTo | Service/GhanaJobsService.cs:61-101 | the page numbers requested are 1..n, in order |
| Listing.ScrapJobs | Service/GhanaJobsService.cs:55-105 | the walk requests exactly pages 1..last in order and returns the jobs of the successfully loaded pages 1..last in page order; the loop keeps the invariant that the document in hand is the last page that loaded, or the empty document if none has |
| Listing.AddNodeJobs | Service/GhanaJobsService.cs:75-89 | the `foreach` leaves the job list extended by one job per node, in node order, with the earlier jobs unchanged |
| Listing.LoadedIsLastSuccess | Service/GhanaJobsService.cs:59-70 | after pages 1..p the document is that of the last page up to p whose fetch succeeded |
| Listing.LoadedBeforeAnySuccess | Service/GhanaJobsService.cs:59-95 | while no fetch has succeeded, the document is the empty one created before the loop |
| Listing.FirstPageFailureStops | Service/GhanaJobsService.cs:59-100 | if page 1 fails, the empty document has no marker and the walk ends after page 1 |
| Listing.FailureAfterMarkerContinues | Service/GhanaJobsService.cs:92-101 | a failed page after a page that had the marker does not end the walk, because the marker is read from the earlier document |
| Listing.WalkStopsAtUnique | Service/GhanaJobsService.cs:96-100 | the page after which the walk breaks is unique |
| Listing.CollectedGrowsAtEnd | Service/GhanaJobsService.cs:58-87 | later pages only append: the jobs from pages 1..q are a prefix of those from pages 1..p when q <= p |
| Listing.CollectedPage | Service/GhanaJobsService.cs:67-95 | page p adds as many jobs as it has nodes, job k of the page is built from node k, and a failed fetch adds nothing |
| Listing.CollectedLength | Service/GhanaJobsService.cs:67-104 | the number of jobs collected is the number of item nodes on the pages that loaded |
| Listing.ThreePageWalk | Service/GhanaJobsService.cs:63-104 | a listing whose third page lacks the marker is walked over pages 1, 2, 3 and yields their three jobs in order |
| NoveltyFilter.ExceptFrom | Service/GhanaJobsService.cs:145 | `Except` continuing from a set of ids already produced or excluded yields exactly the elements not yet seen, each once |
| NoveltyFilter.Except | Service/GhanaJobsService.cs:145 | `newJobsIds.Except(oldJobsIds)` contains exactly the new ids not among the old ones, without repetition |
| NoveltyFilter.ExceptPartitionsCandidates | Service/GhanaJobsService.cs:145 | the difference is disjoint from the old ids, and together with the candidates that are old ids it makes up all candidate ids |
| NoveltyFilter.KeepIdsIn | Service/GhanaJobsService.cs:149 | the `Where(... jobIds.Contains(job.JobId))` step; `KeepIdsInIsNovelJobs` relates it to the reference filter |
| NoveltyFilter.KeepIdsInIsNovelJobs | Service/GhanaJobsService.cs:149 | the `Where(... jobIds.Contains ...)` step equals the reference filter wherever membership in the id list matches novelty |
| NoveltyFilter.FilterOnlyNewJobs | Service/GhanaJobsService.cs:137-152 | the filter equals the reference definition: the scraped jobs, in order, whose id is not among the existing jobs' ids |
| NoveltyFilter.NovelJobsMembership | Service/GhanaJobsService.cs:142-149 | a job is returned exactly when it was scraped and its id is not among the existing ids (sound and complete) |
| NoveltyFilter.NovelJobsIsSubsequence | Service/GhanaJobsService.cs:149 | the result is a subsequence of the scraped list, so relative order is preserved |
| NoveltyFilter.NovelJobsMultiplicity | Service/GhanaJobsService.cs:145-149 | each scraped job with a new id is returned as many times as it was scraped, so jobs sharing an id are all kept, and no other job is returned |
| NoveltyFilter.NovelJobsIdempotent | Service/GhanaJobsService.cs:149 | filtering the result a second time against the same ids leaves it unchanged |
| NoveltyFilter.NovelJobsOfNovel | Service/GhanaJobsService.cs:149 | a list with no recorded id is returned whole |
| NoveltyFilter.NovelJobsOfSeen | Service/GhanaJobsService.cs:149 | a list whose ids are all recorded yields nothing |
| NoveltyFilter.FilterIdempotent | Service/GhanaJobsService.cs:137-152 | `FilterOnlyNewJobs(e, FilterOnlyNewJobs(e, s)) == FilterOnlyNewJobs(e, s)` |
| NoveltyFilter.FilterAgainstNothing | Service/GhanaJobsService.cs:137-152 | with no existing jobs, every scraped job is returned |
| NoveltyFilter.FilterAgainstSuperset | Service/GhanaJobsService.cs:137-152 | when the existing ids cover every scraped id, nothing is returned |
| CsvLedger.IsHeaderRow | Service/GhanaJobsService.cs:130 | the row test of the read filter: `JobId` equals "JobId" |
| CsvLedger.ReadJobsFromCsv | Service/GhanaJobsService.cs:130 | the records read from the ledger; `ReadMembership`, `ReadMultiplicity` and `ReadIsSubsequence` prove it keeps exactly the non-header rows, each as often as it occurs, in file order |
| CsvLedger.AppendedLedger | Service/GhanaJobsService.cs:106-124 | the ledger after an append; `ReadAfterAppend` and `LedgerIdsOnlyGrow` state what reads back from it |
| CsvLedger.ReadMembership | Service/GhanaJobsService.cs:130 | a row is read back exactly when it is in the ledger and its `JobId` is not "JobId" |
| CsvLedger.ReadIsSubsequence | Service/GhanaJobsService.cs:130 | the records read are a subsequence of the rows, so file order is kept |
| CsvLedger.ReadMultiplicity | Service/GhanaJobsService.cs:130 | a header row is read 0 times and every other row as often as it occurs, so exactly the "JobId" rows are removed |
| CsvLedger.ReadConcat | Service/GhanaJobsService.cs:130 | reading a concatenation of rows reads each part in turn |
| CsvLedger.ReadWithoutHeaders | Service/GhanaJobsService.cs:130 | rows none of which has `JobId` "JobId" are all read, unchanged |
| CsvLedger.ReadAfterAppend | Service/GhanaJobsService.cs:108-130 | after an append, the ledger reads back as the earlier records followed by the appended jobs that are not header-like; the re-emitted header line is dropped |
| CsvLedger.LedgerIdsOnlyGrow | Service/GhanaJobsService.cs:106-130 | appending never removes an id from the ids read back |
| Service.NewJobsOfRun | Service/GhanaJobsService.cs:28-29 | the jobs one run writes: the filter of the scrape against the records read; `BackgroundWorker`, `RunAppendsNewJobsToRecords` and `RerunAddsNothing` state its role |
| Service.GhanaJobsService.constructor | Service/GhanaJobsService.cs:17-21 | the service starts with the given ledger and store |
| Service.GhanaJobsService.WriteJobsToCsv | Service/GhanaJobsService.cs:106-124 | an empty list leaves the ledger unchanged; otherwise the ledger gains a header line followed by the jobs |
| Service.GhanaJobsService.SaveJobs | Service/GhanaJobsService.cs:35-53 | the store gains exactly the given jobs, in order, and nothing when the list is empty |
| Service.GhanaJobsService.BackgroundWorker | Service/GhanaJobsService.cs:24-33 | the ledger and the store both gain exactly the run's filtered jobs, the filter taken over the walk's result against the records read before the run; the ledger's id set only grows; an empty filter leaves both unchanged |
| Service.RunAppendsNewJobsToRecords | Service/GhanaJobsService.cs:24-33 | if no scraped job has id "JobId", the records read after a run are those read before followed by the run's new jobs |
| Service.RunRecordsScrapedIds | Service/GhanaJobsService.cs:24-33 | if no scraped job has id "JobId", after a run the ledger holds every scraped id |
| Service.RerunAddsNothing | Service/GhanaJobsService.cs:24-33 | if no scraped job has id "JobId", a second run on the same scrape writes nothing to either the ledger or the store |
| Service.HeaderIdJobIsNewOnEveryRun | Service/GhanaJobsService.cs:130 | a scraped job whose id is "JobId" is new on every run, because the header filter drops it when the ledger is read back; this is why the no-re-ingest lemmas need their precondition |
| Service.ThreeItemScenario | Service/GhanaJobsService.cs:24-33 | with "1001" on record and items ending in -1001, -1002 and -1003, the run keeps the jobs of 1002 and 1003, and afterwards the ledger holds all three ids |
| Service.ItemIdFromHref | Service/GhanaJobsService.cs:81-87 | an item with `data-href` "job-" followed by a dash-free id gets that id |
| Service.ScenarioFilter | Service/GhanaJobsService.cs:137-152 | against a ledger holding "1001", the jobs 1001, 1002 and 1003 filter to 1002 and 1003 |
| Service.ScenarioLedger | Service/GhanaJobsService.cs:106-130 | appending two non-header jobs to a one-record ledger reads back the ids of all three |
| Service.ScenarioRecords | Service/GhanaJobsService.cs:106-130 | appending two non-header jobs to a one-record ledger reads back those three records, in order |
| Service.IdSetOfThree | Service/GhanaJobsService.cs:142 | the id set of three jobs is the set of their three ids |

## Left out

- HTTP (`HttpClient.GetAsync`, status codes and reason phrases) is replaced by the `fetch` parameter. It is a foreign library. A connection failure throws, which aborts the run in the code; the model has no such outcome.
- HtmlAgilityPack's XPath queries, `InnerText` and `Trim` are modelled as already-extracted optional texts on each `ListingNode`. The XPath engine is a foreign library.
- CsvHelper and the file streams (`StreamReader`, `StreamWriter`, `File.Exists`) are reduced to the ledger as a sequence of rows. They are foreign libraries.
  - A ledger file that does not exist makes `ReadJobsFromCsv` throw. This is not modelled.
  - When the file does not exist, `WriteJobsToCsv` writes an empty dummy record. This is not modelled either: the ledger is taken to be the rows below the file's first header line.
- EF Core's `AddRangeAsync` and `SaveChangesAsync` are modelled as appending to the `store` sequence. EF Core is a foreign library.
  - `ApplicationDbContext` (Data/ApplicationDbContext.cs:10-11) registers no set of `Job`, so whether the save can succeed at all is outside the model.
  - A failure of the save is rethrown (line 50) after `WriteJobsToCsv` has already appended the jobs to the ledger. A retried run then finds those jobs already recorded and never saves them. The model has no failing save, so it does not show this.
- The store's generated identity key `Id` is not assigned; scraped jobs carry 0. Key generation is done by the database.
- Hangfire's `[AutomaticRetry(Attempts = 5)]`, async/await and the enqueueing controller are left out. They are scheduling and concurrency machinery.
- Logging calls are left out: they have no effect on the data.
- `DateTime.Today` is the parameter `today`: it is a clock.
- The `CrawledJob` and `GhanaJobId` entity classes, `ApplicationDbContext` and `Program.cs` are left out. They hold no logic that the service uses.
- CsvLedger.ReadJobsFromCsv: assumes that a header line re-emitted by an append reads back as a record with `Id` 0, `ScrappedDate` 0 and `JobId` "JobId", which the filter at line 130 drops. How CsvHelper converts the header's texts in the `int` and `DateTime` columns is not modelled; if that conversion fails, the read throws instead.
- Listing.ScrapJobs: linked to the source only when some page ends the walk (`WalkStopsAt`). A site that always shows the marker makes the source loop forever, and the model says nothing about it.
- Service.GhanaJobsService.BackgroundWorker: the ledger read before filtering is always present; the missing-file exception is not modelled.
