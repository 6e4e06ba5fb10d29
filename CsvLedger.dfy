/**
 * The CSV ledger of jobs already seen (`ReadJobsFromCsv`, `WriteJobsToCsv`
 * in Service/GhanaJobsService.cs), as the sequence of rows below the
 * file's first header line. Each non-empty append opens a new writer, which
 * writes a header line before the records. The model takes such a line to
 * read back as `HeaderRecord`, a row whose `JobId` is the column name
 * "JobId", which the read's filter then drops.
 */
module CsvLedger {
  import opened Wrappers
  import opened JobModel
  import opened Sequences

  /** A row of the ledger that is a header line read as a record. */
  predicate IsHeaderRow(row: Job) {
    row.jobId == Some(HeaderJobId)
  }

  /** The records read from the ledger: every row whose `JobId` is not "JobId", in file order. */
  function ReadJobsFromCsv(rows: seq<Job>): seq<Job> {
    if rows == [] then []
    else (if IsHeaderRow(rows[0]) then [] else [rows[0]]) + ReadJobsFromCsv(rows[1..])
  }

  /** The ledger after appending `jobs`: nothing for no jobs, otherwise a header line and then the jobs. */
  function AppendedLedger(rows: seq<Job>, jobs: seq<Job>): seq<Job> {
    if |jobs| > 0 then rows + [HeaderRecord] + jobs else rows
  }

  /** A row is read exactly when it is not a header row. */
  lemma {:induction false} ReadMembership(rows: seq<Job>, r: Job)
    ensures r in ReadJobsFromCsv(rows) <==> r in rows && !IsHeaderRow(r)
  {
    if rows != [] {
      ReadMembership(rows[1..], r);
      assert rows == [rows[0]] + rows[1..];
    }
  }

  /** Reading keeps the order of the records: the result is a subsequence of the rows. */
  lemma {:induction false} ReadIsSubsequence(rows: seq<Job>)
    ensures IsSubsequence(ReadJobsFromCsv(rows), rows)
  {
    if rows != [] {
      ReadIsSubsequence(rows[1..]);
      var rest := ReadJobsFromCsv(rows[1..]);
      if IsHeaderRow(rows[0]) {
        assert ReadJobsFromCsv(rows) == rest;
        SubsequenceOfTail(rest, rows);
      } else {
        assert ReadJobsFromCsv(rows) == [rows[0]] + rest;
        assert ([rows[0]] + rest)[1..] == rest;
      }
    }
  }

  /** Reading drops exactly the header rows: every other row is read as often as it occurs. */
  lemma {:induction false} ReadMultiplicity(rows: seq<Job>, r: Job)
    ensures multiset(ReadJobsFromCsv(rows))[r] == if IsHeaderRow(r) then 0 else multiset(rows)[r]
  {
    if rows != [] {
      ReadMultiplicity(rows[1..], r);
      assert rows == [rows[0]] + rows[1..];
      assert multiset(rows) == multiset([rows[0]]) + multiset(rows[1..]);
    }
  }

  /** Reading a concatenation reads each part. */
  lemma {:induction false} ReadConcat(a: seq<Job>, b: seq<Job>)
    ensures ReadJobsFromCsv(a + b) == ReadJobsFromCsv(a) + ReadJobsFromCsv(b)
  {
    if a == [] {
      assert a + b == b;
    } else {
      var t := a[1..] + b;
      assert a + b == [a[0]] + t;
      assert (a + b)[1..] == t;
      ReadConcat(a[1..], b);
    }
  }

  /** Rows none of which is a header row are all read. */
  lemma {:induction false} ReadWithoutHeaders(rows: seq<Job>)
    requires forall r :: r in rows ==> !IsHeaderRow(r)
    ensures ReadJobsFromCsv(rows) == rows
  {
    if rows != [] {
      assert forall r :: r in rows[1..] ==> r in rows;
      ReadWithoutHeaders(rows[1..]);
      assert rows == [rows[0]] + rows[1..];
    }
  }

  /** Reading after an append gives the records read before, then the appended jobs that are not header-like. */
  lemma ReadAfterAppend(rows: seq<Job>, jobs: seq<Job>)
    ensures ReadJobsFromCsv(AppendedLedger(rows, jobs)) == ReadJobsFromCsv(rows) + ReadJobsFromCsv(jobs)
  {
    if |jobs| > 0 {
      ReadConcat(rows + [HeaderRecord], jobs);
      ReadConcat(rows, [HeaderRecord]);
      assert ReadJobsFromCsv([HeaderRecord]) == [];
      assert ReadJobsFromCsv(rows) + [] == ReadJobsFromCsv(rows);
    } else {
      assert jobs == [];
      assert ReadJobsFromCsv(rows) + [] == ReadJobsFromCsv(rows);
    }
  }

  /** Appending never removes an id from those read back. */
  lemma LedgerIdsOnlyGrow(rows: seq<Job>, jobs: seq<Job>)
    ensures IdSet(ReadJobsFromCsv(rows)) <= IdSet(ReadJobsFromCsv(AppendedLedger(rows, jobs)))
  {
    ReadAfterAppend(rows, jobs);
    IdSetAppend(ReadJobsFromCsv(rows), ReadJobsFromCsv(jobs));
  }
}
