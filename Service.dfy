/**
 * One crawler run, `BackgroundWorker` (Service/GhanaJobsService.cs): scrape
 * the listing pages, read the ledger, keep the jobs whose id is new, append
 * them to the ledger and save them to the store.
 *
 * The ledger file and the database are the two state fields of the service
 * object; the network is the `fetch` parameter and the clock `today`.
 */
module Service {
  import opened Wrappers
  import opened JobModel
  import opened JobIdentifier
  import opened Listing
  import opened NoveltyFilter
  import opened CsvLedger

  /** The jobs a run writes: the scraped jobs whose id the ledger does not yet hold. */
  function NewJobsOfRun(ledger: seq<Job>, scraped: seq<Job>): seq<Job> {
    FilterOnlyNewJobs(ReadJobsFromCsv(ledger), scraped)
  }

  class GhanaJobsService {
    /** The rows of the CSV ledger below its first header line. */
    var ledger: seq<Job>
    /** The jobs saved to the database, in the order they were added. */
    var store: seq<Job>

    constructor (ledger: seq<Job>, store: seq<Job>)
      ensures this.ledger == ledger && this.store == store
    {
      this.ledger := ledger;
      this.store := store;
    }

    /** Appends `jobsList` after a fresh header line, or does nothing when it is empty. */
    method WriteJobsToCsv(jobsList: seq<Job>)
      modifies this`ledger
      ensures ledger == AppendedLedger(old(ledger), jobsList)
    {
      if |jobsList| > 0 {
        ledger := ledger + [HeaderRecord] + jobsList;
      }
    }

    /** Adds `jobs` to the store, or does nothing when it is empty. */
    method SaveJobs(jobs: seq<Job>)
      modifies this`store
      ensures store == old(store) + jobs
    {
      if |jobs| > 0 {
        store := store + jobs;
      }
    }

    /**
     * One run. `last` is the page after which the listing walk stops; the
     * ledger and the store both gain exactly the new jobs of the scrape.
     */
    method BackgroundWorker(fetch: nat -> Response, today: Date, ghost last: nat)
      requires WalkStopsAt(fetch, last)
      modifies this
      ensures var filter := NewJobsOfRun(old(ledger), Collected(fetch, today, last));
        ledger == AppendedLedger(old(ledger), filter) && store == old(store) + filter
      ensures IdSet(ReadJobsFromCsv(old(ledger))) <= IdSet(ReadJobsFromCsv(ledger))
      ensures NewJobsOfRun(old(ledger), Collected(fetch, today, last)) == [] ==>
        ledger == old(ledger) && store == old(store)
    {
      var scrappedJobsList, requested := ScrapJobs(fetch, today, last);
      var readCsv := ReadJobsFromCsv(ledger);
      var filter := FilterOnlyNewJobs(readCsv, scrappedJobsList);
      LedgerIdsOnlyGrow(ledger, filter);
      WriteJobsToCsv(filter);
      SaveJobs(filter);
    }
  }

  /** No scraped job carries the header's id text. */
  ghost predicate NoHeaderIds(scraped: seq<Job>) {
    forall s :: s in scraped ==> !IsHeaderRow(s)
  }

  /** The records read back after a run are those read before, followed by the run's new jobs. */
  lemma RunAppendsNewJobsToRecords(ledger: seq<Job>, scraped: seq<Job>)
    requires NoHeaderIds(scraped)
    ensures ReadJobsFromCsv(AppendedLedger(ledger, NewJobsOfRun(ledger, scraped))) ==
      ReadJobsFromCsv(ledger) + NewJobsOfRun(ledger, scraped)
  {
    var filter := NewJobsOfRun(ledger, scraped);
    ReadAfterAppend(ledger, filter);
    forall r | r in filter ensures !IsHeaderRow(r) {
      NovelJobsMembership(scraped, IdSet(ReadJobsFromCsv(ledger)), r);
    }
    ReadWithoutHeaders(filter);
  }

  /** After a run the ledger holds the id of every scraped job. */
  lemma RunRecordsScrapedIds(ledger: seq<Job>, scraped: seq<Job>)
    requires NoHeaderIds(scraped)
    ensures IdSet(scraped) <= IdSet(ReadJobsFromCsv(AppendedLedger(ledger, NewJobsOfRun(ledger, scraped))))
  {
    var records := ReadJobsFromCsv(ledger);
    var filter := NewJobsOfRun(ledger, scraped);
    RunAppendsNewJobsToRecords(ledger, scraped);
    IdSetAppend(records, filter);
    forall s | s in scraped ensures s.jobId in IdSet(records) + IdSet(filter) {
      NovelJobsMembership(scraped, IdSet(records), s);
    }
  }

  /** Running again on the same scrape finds nothing new, so it writes nothing. */
  lemma RerunAddsNothing(ledger: seq<Job>, scraped: seq<Job>)
    requires NoHeaderIds(scraped)
    ensures NewJobsOfRun(AppendedLedger(ledger, NewJobsOfRun(ledger, scraped)), scraped) == []
  {
    RunRecordsScrapedIds(ledger, scraped);
    FilterAgainstSuperset(ReadJobsFromCsv(AppendedLedger(ledger, NewJobsOfRun(ledger, scraped))), scraped);
  }

  /**
   * The header filter also drops a genuine job whose id is "JobId" (one
   * whose `data-href` ends in "-JobId"): it is new on every run.
   */
  lemma HeaderIdJobIsNewOnEveryRun(job: Job)
    requires IsHeaderRow(job)
    ensures NewJobsOfRun([], [job]) == [job]
    ensures NewJobsOfRun(AppendedLedger([], [job]), [job]) == [job]
  {
    FilterAgainstNothing([job]);
    assert [HeaderRecord, job][1..] == [job] && [job][1..] == [];
    assert ReadJobsFromCsv([job]) == [];
    assert ReadJobsFromCsv([HeaderRecord, job]) == [];
    assert AppendedLedger([], [job]) == [HeaderRecord, job];
  }

  /**
   * A run over three items: the ledger holds id "1001"; the listing
   * yields items ending in -1001, -1002 and -1003; the run adds the jobs
   * of 1002 and 1003 and afterwards the ledger holds all three ids.
   */
  lemma ThreeItemScenario(a: ListingNode, b: ListingNode, c: ListingNode, known: Job, today: Date)
    requires a.dataHref == Some("job-1001") && b.dataHref == Some("job-1002") && c.dataHref == Some("job-1003")
    requires known.jobId == Some("1001")
    ensures var scraped := [JobFromNode(a, today), JobFromNode(b, today), JobFromNode(c, today)];
      NewJobsOfRun([known], scraped) == scraped[1..] &&
      IdSet(ReadJobsFromCsv(AppendedLedger([known], scraped[1..]))) == {Some("1001"), Some("1002"), Some("1003")}
  {
    assert "job-1001" == "job" + [Dash] + "1001";
    assert "job-1002" == "job" + [Dash] + "1002";
    assert "job-1003" == "job" + [Dash] + "1003";
    ItemIdFromHref(a, "1001", today);
    ItemIdFromHref(b, "1002", today);
    ItemIdFromHref(c, "1003", today);
    var scraped := [JobFromNode(a, today), JobFromNode(b, today), JobFromNode(c, today)];
    assert scraped[1..] == [JobFromNode(b, today), JobFromNode(c, today)];
    ScenarioFilter(known, JobFromNode(a, today), JobFromNode(b, today), JobFromNode(c, today));
    ScenarioLedger(known, JobFromNode(b, today), JobFromNode(c, today));
  }

  /** An item whose `data-href` is "job-" followed by `id` gets the job id `id`. */
  lemma ItemIdFromHref(node: ListingNode, id: string, today: Date)
    requires Dash !in id && node.dataHref == Some("job" + [Dash] + id)
    ensures JobFromNode(node, today).jobId == Some(id)
  {
    DeriveJobIdOfDashed("job", id);
  }

  /** The filter step of `ThreeItemScenario`, on the jobs' ids. */
  lemma ScenarioFilter(known: Job, ja: Job, jb: Job, jc: Job)
    requires known.jobId == Some("1001") && ja.jobId == Some("1001")
    requires jb.jobId == Some("1002") && jc.jobId == Some("1003")
    ensures NewJobsOfRun([known], [ja, jb, jc]) == [jb, jc]
  {
    var seen := {Some("1001")};
    assert IdSet([known]) == seen;
    assert ReadJobsFromCsv([known]) == [known];
    assert [jc][1..] == [] && [jb, jc][1..] == [jc] && [ja, jb, jc][1..] == [jb, jc];
    assert NovelJobs([jc], seen) == [jc];
    assert NovelJobs([jb, jc], seen) == [jb, jc];
  }

  /** The ledger step of `ThreeItemScenario`: the ledger read back holds the three ids. */
  lemma ScenarioLedger(known: Job, jb: Job, jc: Job)
    requires !IsHeaderRow(known) && !IsHeaderRow(jb) && !IsHeaderRow(jc)
    ensures IdSet(ReadJobsFromCsv(AppendedLedger([known], [jb, jc]))) == {known.jobId, jb.jobId, jc.jobId}
  {
    ScenarioRecords(known, jb, jc);
    IdSetOfThree(known, jb, jc);
  }

  lemma ScenarioRecords(known: Job, jb: Job, jc: Job)
    requires !IsHeaderRow(known) && !IsHeaderRow(jb) && !IsHeaderRow(jc)
    ensures ReadJobsFromCsv(AppendedLedger([known], [jb, jc])) == [known, jb, jc]
  {
    ReadWithoutHeaders([known]);
    ReadAfterAppend([known], [jb, jc]);
    ReadWithoutHeaders([jb, jc]);
  }

  lemma IdSetOfThree(a: Job, b: Job, c: Job)
    ensures IdSet([a, b, c]) == {a.jobId, b.jobId, c.jobId}
  {
  }
}
