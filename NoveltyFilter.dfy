/**
 * `FilterOnlyNewJobs` (Service/GhanaJobsService.cs): keep the scraped jobs
 * whose id is not among the ids of the jobs already on record.
 */
module NoveltyFilter {
  import opened Wrappers
  import opened JobModel
  import opened Sequences

  /**
   * LINQ `Except` run from a set of elements already produced or excluded:
   * each element of `xs` not in `seen` is yielded once, at its first occurrence.
   */
  function ExceptFrom<T(==,!new)>(xs: seq<T>, seen: set<T>): (r: seq<T>)
    ensures forall x :: x in r <==> x in xs && x !in seen
    ensures forall i :: 0 <= i < |r| ==> r[i] !in seen
    ensures Distinct(r)
  {
    if xs == [] then []
    else if xs[0] in seen then ExceptFrom(xs[1..], seen)
    else [xs[0]] + ExceptFrom(xs[1..], seen + {xs[0]})
  }

  /** `xs.Except(ys)`: the distinct elements of `xs` not in `ys`, in order of first occurrence. */
  function Except<T(==,!new)>(xs: seq<T>, ys: seq<T>): (r: seq<T>)
    ensures forall x :: x in r <==> x in xs && x !in ys
    ensures Distinct(r)
  {
    ExceptFrom(xs, set y | y in ys)
  }

  /**
   * The set identities of a set difference: with C the candidate ids and S
   * the ids on record, the difference is disjoint from S, and it and C ∩ S
   * make up C.
   */
  lemma ExceptPartitionsCandidates<T(!new)>(xs: seq<T>, ys: seq<T>)
    ensures var d := set x | x in Except(xs, ys);
      var c := set x | x in xs;
      var s := set y | y in ys;
      d * s == {} && d + (c * s) == c
  {
  }

  /** `jobs.Where(job => ids.Contains(job.JobId))`. */
  function KeepIdsIn(jobs: seq<Job>, ids: seq<Option<string>>): seq<Job> {
    if jobs == [] then []
    else (if jobs[0].jobId in ids then [jobs[0]] else []) + KeepIdsIn(jobs[1..], ids)
  }

  /** The reference definition: the jobs of `scraped`, in order, whose id is not in `seen`. */
  function NovelJobs(scraped: seq<Job>, seen: set<Option<string>>): seq<Job> {
    if scraped == [] then []
    else (if scraped[0].jobId in seen then [] else [scraped[0]]) + NovelJobs(scraped[1..], seen)
  }

  /** Keeping the ids in `ids` is keeping the novel ones when, on `jobs`, the two tests agree. */
  lemma {:induction false} KeepIdsInIsNovelJobs(jobs: seq<Job>, ids: seq<Option<string>>, seen: set<Option<string>>)
    requires forall j :: j in jobs ==> (j.jobId in ids <==> j.jobId !in seen)
    ensures KeepIdsIn(jobs, ids) == NovelJobs(jobs, seen)
  {
    if jobs != [] {
      assert forall j :: j in jobs[1..] ==> j in jobs;
      KeepIdsInIsNovelJobs(jobs[1..], ids, seen);
    }
  }

  /**
   * The source's filter: take the distinct scraped ids not among the
   * existing ids, then every scraped job whose id is one of them. It is the
   * scraped list with the jobs of already-recorded ids taken out.
   */
  function FilterOnlyNewJobs(alreadyExistingJobs: seq<Job>, scrappedJobs: seq<Job>): (filteredJobs: seq<Job>)
    ensures filteredJobs == NovelJobs(scrappedJobs, IdSet(alreadyExistingJobs))
  {
    var oldJobsIds := IdsOf(alreadyExistingJobs);
    var newJobsIds := IdsOf(scrappedJobs);
    var jobIds := Except(newJobsIds, oldJobsIds);
    assert forall j :: j in scrappedJobs ==> j.jobId in newJobsIds by {
      forall j | j in scrappedJobs ensures j.jobId in newJobsIds {
        var k :| 0 <= k < |scrappedJobs| && scrappedJobs[k] == j;
        assert newJobsIds[k] == j.jobId;
      }
    }
    assert forall x :: x in oldJobsIds <==> x in IdSet(alreadyExistingJobs) by {
      forall x ensures x in oldJobsIds <==> x in IdSet(alreadyExistingJobs) {
        if x in oldJobsIds {
          var k :| 0 <= k < |oldJobsIds| && oldJobsIds[k] == x;
          assert alreadyExistingJobs[k] in alreadyExistingJobs;
        }
        if x in IdSet(alreadyExistingJobs) {
          var j :| j in alreadyExistingJobs && j.jobId == x;
          var k :| 0 <= k < |alreadyExistingJobs| && alreadyExistingJobs[k] == j;
          assert oldJobsIds[k] == x;
        }
      }
    }
    KeepIdsInIsNovelJobs(scrappedJobs, jobIds, IdSet(alreadyExistingJobs));
    KeepIdsIn(scrappedJobs, jobIds)
  }

  /** A scraped job is novel exactly when its id is not in `seen`. */
  lemma {:induction false} NovelJobsMembership(scraped: seq<Job>, seen: set<Option<string>>, j: Job)
    ensures j in NovelJobs(scraped, seen) <==> j in scraped && j.jobId !in seen
  {
    if scraped != [] {
      NovelJobsMembership(scraped[1..], seen, j);
      assert scraped == [scraped[0]] + scraped[1..];
    }
  }

  /** The novel jobs keep the scraped order: they are a subsequence of the scraped list. */
  lemma {:induction false} NovelJobsIsSubsequence(scraped: seq<Job>, seen: set<Option<string>>)
    ensures IsSubsequence(NovelJobs(scraped, seen), scraped)
  {
    if scraped != [] {
      NovelJobsIsSubsequence(scraped[1..], seen);
      var rest := NovelJobs(scraped[1..], seen);
      if scraped[0].jobId in seen {
        assert NovelJobs(scraped, seen) == rest;
        SubsequenceOfTail(rest, scraped);
      } else {
        assert NovelJobs(scraped, seen) == [scraped[0]] + rest;
        assert ([scraped[0]] + rest)[1..] == rest;
      }
    }
  }

  /**
   * Every scraped job with a novel id is kept as often as it was scraped
   * (so jobs sharing an id are all kept), and no other job is kept.
   */
  lemma {:induction false} NovelJobsMultiplicity(scraped: seq<Job>, seen: set<Option<string>>, j: Job)
    ensures multiset(NovelJobs(scraped, seen))[j] == if j.jobId in seen then 0 else multiset(scraped)[j]
  {
    if scraped != [] {
      NovelJobsMultiplicity(scraped[1..], seen, j);
      assert scraped == [scraped[0]] + scraped[1..];
      assert multiset(scraped) == multiset([scraped[0]]) + multiset(scraped[1..]);
    }
  }

  /** Filtering the novel jobs again against the same ids changes nothing. */
  lemma {:induction false} NovelJobsIdempotent(scraped: seq<Job>, seen: set<Option<string>>)
    ensures NovelJobs(NovelJobs(scraped, seen), seen) == NovelJobs(scraped, seen)
  {
    if scraped != [] {
      NovelJobsIdempotent(scraped[1..], seen);
      var rest := NovelJobs(scraped[1..], seen);
      if scraped[0].jobId !in seen {
        var once := [scraped[0]] + rest;
        assert NovelJobs(scraped, seen) == once;
        assert once[0] == scraped[0] && once[1..] == rest;
        assert NovelJobs(once, seen) == [once[0]] + NovelJobs(once[1..], seen);
      } else {
        assert NovelJobs(scraped, seen) == rest;
      }
    }
  }

  /** A list none of whose ids is in `seen` is kept whole. */
  lemma {:induction false} NovelJobsOfNovel(scraped: seq<Job>, seen: set<Option<string>>)
    requires forall j :: j in scraped ==> j.jobId !in seen
    ensures NovelJobs(scraped, seen) == scraped
  {
    if scraped != [] {
      assert forall j :: j in scraped[1..] ==> j in scraped;
      NovelJobsOfNovel(scraped[1..], seen);
      assert scraped == [scraped[0]] + scraped[1..];
    }
  }

  /** A list all of whose ids are in `seen` has no novel job. */
  lemma {:induction false} NovelJobsOfSeen(scraped: seq<Job>, seen: set<Option<string>>)
    requires forall j :: j in scraped ==> j.jobId in seen
    ensures NovelJobs(scraped, seen) == []
  {
    if scraped != [] {
      assert forall j :: j in scraped[1..] ==> j in scraped;
      NovelJobsOfSeen(scraped[1..], seen);
    }
  }

  /** `FilterOnlyNewJobs` is idempotent for a fixed list of existing jobs. */
  lemma FilterIdempotent(existing: seq<Job>, scraped: seq<Job>)
    ensures FilterOnlyNewJobs(existing, FilterOnlyNewJobs(existing, scraped)) == FilterOnlyNewJobs(existing, scraped)
  {
    NovelJobsIdempotent(scraped, IdSet(existing));
  }

  /** Against no existing jobs every scraped job is new. */
  lemma FilterAgainstNothing(scraped: seq<Job>)
    ensures FilterOnlyNewJobs([], scraped) == scraped
  {
    assert IdSet([]) == {};
    NovelJobsOfNovel(scraped, {});
  }

  /** When every scraped id is already recorded, nothing is new. */
  lemma FilterAgainstSuperset(existing: seq<Job>, scraped: seq<Job>)
    requires IdSet(scraped) <= IdSet(existing)
    ensures FilterOnlyNewJobs(existing, scraped) == []
  {
    NovelJobsOfSeen(scraped, IdSet(existing));
  }
}
