/**
 * The `Job` record of the crawler (Model/Job.cs): one listing item scraped
 * from the job board, as it is kept in the CSV ledger and in the store.
 */
module JobModel {
  import opened Wrappers

  /** A calendar day (C# `DateTime.Today`), abstracted to a day number. */
  type Date = int

  /**
   * One job. `id` is the store's identity key; every other field but
   * `scrappedDate` is a nullable string in the source.
   */
  datatype Job = Job(
    id: int,
    jobId: Option<string>,
    title: Option<string>,
    employer: Option<string>,
    source: Option<string>,
    description: Option<string>,
    location: Option<string>,
    industry: Option<string>,
    expiryDate: Option<string>,
    scrappedDate: Date)

  /** The text of the `JobId` column in the ledger's header line. */
  const HeaderJobId: string := "JobId"

  /**
   * A header line of the ledger taken as a record: every text column holds
   * its own column name. The header's texts in the `Id` and `ScrappedDate`
   * columns are not numbers or dates; this model reads them as 0, a choice
   * of the model and not something the service's own code decides.
   */
  const HeaderRecord: Job := Job(0, Some(HeaderJobId), Some("Title"), Some("Employer"),
    Some("Source"), Some("Description"), Some("Location"), Some("Industry"),
    Some("ExpiryDate"), 0)

  /** The ids of `jobs`, one per job and in order (the `ForEach(... Add(job.JobId))` loops). */
  function IdsOf(jobs: seq<Job>): (ids: seq<Option<string>>)
    ensures |ids| == |jobs|
    ensures forall i :: 0 <= i < |jobs| ==> ids[i] == jobs[i].jobId
  {
    if jobs == [] then [] else [jobs[0].jobId] + IdsOf(jobs[1..])
  }

  /** The set of ids that occur among `jobs`. */
  function IdSet(jobs: seq<Job>): set<Option<string>> {
    set j | j in jobs :: j.jobId
  }

  lemma IdSetAppend(a: seq<Job>, b: seq<Job>)
    ensures IdSet(a + b) == IdSet(a) + IdSet(b)
  {
    assert forall j :: j in a + b <==> j in a || j in b;
  }
}
