/** A whole reprocessing job: the reports of its workers taken together. */
module JobTotals {

  import opened Reprocess
  import opened WorkerFiles

  /** The lines of the attempt that counts, none if every attempt fails. */
  function LinesOf(file: File, k: nat, retries: nat): nat
    requires k <= retries
    decreases retries - k
  {
    if k == retries then 0
    else if file.attempts(k).Scanned? && !file.attempts(k).readError then |file.attempts(k).lines|
    else LinesOf(file, k + 1, retries)
  }

  predicate GivenUp(file: File, k: nat, retries: nat)
    requires k <= retries
    decreases retries - k
  {
    if k == retries then retries > 0
    else !(file.attempts(k).Scanned? && !file.attempts(k).readError) && GivenUp(file, k + 1, retries)
  }

  lemma {:induction false} FileTotal(c: Counts, file: File, k: nat, retries: nat, batchSize: nat, dryRun: bool)
    requires k <= retries
    ensures var (c', failed) := FileCounts(c, file, k, retries, batchSize, dryRun);
      c'.total == c.total + LinesOf(file, k, retries) && failed == GivenUp(file, k, retries)
    decreases retries - k
  {
    if k < retries {
      var a := file.attempts(k);
      if a.Scanned? { LinesConserve(c, [], a.lines, batchSize, dryRun); }
      var (c1, ok) := AttemptCounts(c, a, batchSize, dryRun);
      if !ok { FileTotal(c.(queued := c1.queued), file, k + 1, retries, batchSize, dryRun); }
    }
  }

  function Sum(files: seq<File>, f: File -> nat): nat {
    if files == [] then 0 else Sum(files[..|files| - 1], f) + f(files[|files| - 1])
  }

  function Lines(retries: nat): File -> nat { file => LinesOf(file, 0, retries) }

  function Losses(retries: nat): File -> nat { file => if GivenUp(file, 0, retries) then 1 else 0 }

  lemma {:induction false} WorkerTotal(files: seq<File>, retries: nat, batchSize: nat, dryRun: bool)
    ensures var (c, exhausted) := RunCounts(Counts(0, 0, 0, 0, 0), files, retries, batchSize, dryRun);
      c.total == Sum(files, Lines(retries)) && exhausted == Sum(files, Losses(retries))
  {
    if files != [] {
      var n := |files| - 1;
      WorkerTotal(files[..n], retries, batchSize, dryRun);
      var before := RunCounts(Counts(0, 0, 0, 0, 0), files[..n], retries, batchSize, dryRun).0;
      FileTotal(before, files[n], 0, retries, batchSize, dryRun);
    }
  }

  /** The sum over the shares of the first m of k workers. */
  function SumOfShares(files: seq<File>, k: nat, m: nat, f: File -> nat): nat
    requires m <= k && k > 0
  {
    if m == 0 then 0 else SumOfShares(files, k, m - 1, f) + Sum(Share(files, m - 1, k), f)
  }

  lemma SumMore(files: seq<File>, file: File, f: File -> nat)
    ensures Sum(files + [file], f) == Sum(files, f) + f(file)
  {
    assert (files + [file])[..|files|] == files;
  }

  lemma {:induction false} OneMoreFile(files: seq<File>, k: nat, m: nat, f: File -> nat)
    requires m <= k && k > 0 && files != []
    ensures var n := |files| - 1;
      SumOfShares(files, k, m, f) == SumOfShares(files[..n], k, m, f) + if n % k < m then f(files[n]) else 0
    decreases m
  {
    hide Share, Sum;
    if m > 0 {
      OneMoreFile(files, k, m - 1, f);
      ShareGrows(files, m - 1, k, f);
    }
  }

  lemma ShareGrows(files: seq<File>, w: nat, k: nat, f: File -> nat)
    requires w < k && files != []
    ensures var n := |files| - 1;
      Sum(Share(files, w, k), f) == Sum(Share(files[..n], w, k), f) + if n % k == w then f(files[n]) else 0
  {
    var n := |files| - 1;
    if n % k == w {
      SumMore(Share(files[..n], w, k), files[n], f);
    } else {
      assert Share(files, w, k) == Share(files[..n], w, k);
    }
  }

  lemma {:induction false} SharesSumUp(files: seq<File>, k: nat, f: File -> nat)
    requires k > 0
    ensures SumOfShares(files, k, k, f) == Sum(files, f)
  {
    if files == [] {
      NothingToShare(k, k, f);
    } else {
      OneMoreFile(files, k, k, f);
      SharesSumUp(files[..|files| - 1], k, f);
    }
  }

  lemma {:induction false} NothingToShare(k: nat, m: nat, f: File -> nat)
    requires m <= k && k > 0
    ensures SumOfShares([], k, m, f) == 0
  {
    if m > 0 { NothingToShare(k, m - 1, f); }
  }

  /** The final report of worker w, of whose messages `undelivered` never left. */
  function Report(files: seq<File>, w: nat, k: nat, retries: nat, batchSize: nat, dryRun: bool, undelivered: nat): Counts
    requires k > 0
  {
    Undelivered(RunCounts(Counts(0, 0, 0, 0, 0), Share(files, w, k), retries, batchSize, dryRun).0, undelivered)
  }

  /** The lines and the counted outcomes of the first m workers together. */
  function Together(files: seq<File>, k: nat, m: nat, retries: nat, batchSize: nat, dryRun: bool, undelivered: nat -> nat): (int, int)
    requires m <= k && k > 0
  {
    if m == 0 then (0, 0)
    else
      var (total, accounted) := Together(files, k, m - 1, retries, batchSize, dryRun, undelivered);
      var report := Report(files, m - 1, k, retries, batchSize, dryRun, undelivered(m - 1));
      (total + report.total, accounted + Accounted(report))
  }

  lemma {:induction false} WorkersTogether(files: seq<File>, k: nat, m: nat, retries: nat, batchSize: nat, dryRun: bool, undelivered: nat -> nat)
    requires m <= k && k > 0
    ensures var (total, accounted) := Together(files, k, m, retries, batchSize, dryRun, undelivered);
      && total == SumOfShares(files, k, m, Lines(retries))
      && accounted == total + SumOfShares(files, k, m, Losses(retries))
    decreases m
  {
    hide Report, Share, Sum;
    if m > 0 {
      WorkersTogether(files, k, m - 1, retries, batchSize, dryRun, undelivered);
      OneReport(files, m - 1, k, retries, batchSize, dryRun, undelivered(m - 1));
    }
  }

  lemma {:induction false} OneReport(files: seq<File>, w: nat, k: nat, retries: nat, batchSize: nat, dryRun: bool, undelivered: nat)
    requires w < k
    ensures var report, share := Report(files, w, k, retries, batchSize, dryRun, undelivered), Share(files, w, k);
      report.total == Sum(share, Lines(retries)) && Accounted(report) == report.total + Sum(share, Losses(retries))
  {
    hide RunCounts, Share, Sum;
    WorkerTotal(Share(files, w, k), retries, batchSize, dryRun);
    ReportBalances(Share(files, w, k), retries, batchSize, dryRun, undelivered);
  }

  /** However many workers share the files of a job, their reports together count every line
      of every file once, none twice, and one error more for each file given up. */
  lemma JobIsCovered(files: seq<File>, k: nat, retries: nat, batchSize: nat, dryRun: bool, undelivered: nat -> nat)
    requires k > 0
    ensures var (total, accounted) := Together(files, k, k, retries, batchSize, dryRun, undelivered);
      && total == Sum(files, Lines(retries))
      && accounted == Sum(files, Lines(retries)) + Sum(files, Losses(retries))
  {
    WorkersTogether(files, k, k, retries, batchSize, dryRun, undelivered);
    SharesSumUp(files, k, Lines(retries));
    SharesSumUp(files, k, Losses(retries));
  }
}
