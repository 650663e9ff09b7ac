/** The counters of a reprocessing worker: lines are parsed, filtered, batched and handed
    to the producer, files are retried from rolled-back counters, and what is still queued
    at the end is taken back out of the success count. */
module Reprocess {

  /** Where the routing rules send a message. */
  datatype Route = Deliver | DropByRule | NoRoute

  /** A message, and whether serialising it and handing it to the producer succeed. */
  datatype Message = Message(route: Route, marshals: bool, produces: bool)

  datatype Line = Unparsable | Filtered | Selected(message: Message)

  /** One attempt at a file: it cannot be opened, or yields lines and perhaps a read error. */
  datatype Attempt = Unreadable | Scanned(lines: seq<Line>, readError: bool)

  /** A file and the outcome of each attempt at it. */
  datatype File = File(size: nat, attempts: nat -> Attempt)

  /** `queued` counts the messages ever handed to the producer; it is never rolled back. */
  datatype Counts = Counts(total: int, success: int, errors: int, skipped: int, queued: int)

  // ----- what the worker computes

  predicate Aborts(m: Message, dryRun: bool) {
    m.route.Deliver? && (!m.marshals || (!dryRun && !m.produces))
  }

  function BatchCounts(c: Counts, batch: seq<Message>, dryRun: bool): Counts
    decreases |batch|
  {
    if batch == [] then c
    else
      var m := batch[0];
      match m.route
      case DropByRule => BatchCounts(c.(skipped := c.skipped + 1), batch[1..], dryRun)
      case NoRoute => BatchCounts(c.(errors := c.errors + 1), batch[1..], dryRun)
      case Deliver =>
        if Aborts(m, dryRun) then c.(errors := c.errors + |batch|)
        else BatchCounts(c.(success := c.success + 1, queued := if dryRun then c.queued else c.queued + 1),
                         batch[1..], dryRun)
  }

  function LineCounts(c: Counts, pending: seq<Message>, lines: seq<Line>, batchSize: nat, dryRun: bool): Counts
    decreases |lines|
  {
    if lines == [] then BatchCounts(c, pending, dryRun)
    else
      var c1 := c.(total := c.total + 1);
      match lines[0]
      case Unparsable => LineCounts(c1.(errors := c1.errors + 1), pending, lines[1..], batchSize, dryRun)
      case Filtered => LineCounts(c1.(skipped := c1.skipped + 1), pending, lines[1..], batchSize, dryRun)
      case Selected(m) =>
        if |pending| + 1 >= batchSize
        then LineCounts(BatchCounts(c1, pending + [m], dryRun), [], lines[1..], batchSize, dryRun)
        else LineCounts(c1, pending + [m], lines[1..], batchSize, dryRun)
  }

  function AttemptCounts(c: Counts, a: Attempt, batchSize: nat, dryRun: bool): (Counts, bool) {
    match a
    case Unreadable => (c, false)
    case Scanned(lines, readError) => (LineCounts(c, [], lines, batchSize, dryRun), !readError)
  }

  /** Attempts from `k` on; a failed one leaves nothing but the queue behind. */
  function FileCounts(c: Counts, file: File, k: nat, retries: nat, batchSize: nat, dryRun: bool): (Counts, bool)
    requires k <= retries
    decreases retries - k
  {
    if k == retries then (c, retries > 0)
    else
      var (c1, ok) := AttemptCounts(c, file.attempts(k), batchSize, dryRun);
      if ok then (c1, false) else FileCounts(c.(queued := c1.queued), file, k + 1, retries, batchSize, dryRun)
  }

  /** All files in order, and how many of them exhausted their retries. */
  function RunCounts(c: Counts, files: seq<File>, retries: nat, batchSize: nat, dryRun: bool): (Counts, nat) {
    if files == [] then (c, 0)
    else
      var (before, exhausted) := RunCounts(c, files[..|files| - 1], retries, batchSize, dryRun);
      var (c1, failed) := FileCounts(before, files[|files| - 1], 0, retries, batchSize, dryRun);
      if failed then (c1.(errors := c1.errors + 1), exhausted + 1) else (c1, exhausted)
  }

  function Bytes(files: seq<File>): nat {
    if files == [] then 0 else Bytes(files[..|files| - 1]) + files[|files| - 1].size
  }

  function Undelivered(c: Counts, undelivered: nat): Counts {
    var moved := if undelivered > c.success then c.success else undelivered;
    c.(success := c.success - moved, errors := c.errors + moved)
  }

  // ----- the worker

  class WorkerStatus {
    var totalLines: int
    var successCount: int
    var errorCount: int
    var skippedCount: int
    var processedFiles: int
    var processedBytes: int
    ghost var queued: int

    ghost function View(): Counts
      reads this
    {
      Counts(totalLines, successCount, errorCount, skippedCount, queued)
    }

    constructor ()
      ensures View() == Counts(0, 0, 0, 0, 0) && processedFiles == 0 && processedBytes == 0
    {
      totalLines, successCount, errorCount, skippedCount, queued := 0, 0, 0, 0, 0;
      processedFiles, processedBytes := 0, 0;
    }

    method SendBatch(batch: seq<Message>, dryRun: bool)
      modifies this`successCount, this`errorCount, this`skippedCount, this`queued
      ensures View() == BatchCounts(old(View()), batch, dryRun)
    {
      for i := 0 to |batch|
        invariant totalLines == old(totalLines)
        invariant BatchCounts(View(), batch[i..], dryRun) == BatchCounts(old(View()), batch, dryRun)
      {
        var m := batch[i];
        assert batch[i..][0] == m && batch[i..][1..] == batch[i + 1..];
        if !m.route.Deliver? {
          if m.route.DropByRule? {
            skippedCount := skippedCount + 1;
          } else {
            errorCount := errorCount + 1;
          }
          continue;
        }
        if !m.marshals {
          errorCount := errorCount + (|batch| - i);
          return;
        }
        if dryRun {
          successCount := successCount + 1;
          continue;
        }
        if !m.produces {
          errorCount := errorCount + (|batch| - i);
          return;
        }
        queued := queued + 1;
        successCount := successCount + 1;
      }
    }

    method ProcessFile(a: Attempt, batchSize: nat, dryRun: bool) returns (ok: bool)
      modifies this`totalLines, this`successCount, this`errorCount, this`skippedCount, this`queued
      ensures (View(), ok) == AttemptCounts(old(View()), a, batchSize, dryRun)
    {
      if a.Unreadable? { return false; }
      var batch: seq<Message> := [];
      for i := 0 to |a.lines|
        invariant LineCounts(View(), batch, a.lines[i..], batchSize, dryRun)
               == LineCounts(old(View()), [], a.lines, batchSize, dryRun)
      {
        assert a.lines[i..][0] == a.lines[i] && a.lines[i..][1..] == a.lines[i + 1..];
        totalLines := totalLines + 1;
        match a.lines[i] {
          case Unparsable =>
            errorCount := errorCount + 1;
          case Filtered =>
            skippedCount := skippedCount + 1;
          case Selected(m) =>
            batch := batch + [m];
            if |batch| >= batchSize {
              SendBatch(batch, dryRun);
              batch := [];
            }
        }
      }
      if |batch| > 0 { SendBatch(batch, dryRun); }
      ok := !a.readError;
    }

    /** A file with its retries: counters are rolled back after a failed attempt. */
    method ProcessWithRetries(file: File, retries: nat, batchSize: nat, dryRun: bool) returns (failed: bool)
      modifies this`totalLines, this`successCount, this`errorCount, this`skippedCount, this`queued
      ensures (View(), failed) == FileCounts(old(View()), file, 0, retries, batchSize, dryRun)
    {
      failed := false;
      for k := 0 to retries
        invariant failed == (k > 0)
        invariant FileCounts(View(), file, k, retries, batchSize, dryRun)
               == FileCounts(old(View()), file, 0, retries, batchSize, dryRun)
      {
        var savedTotal, savedSuccess, savedErrors, savedSkipped := totalLines, successCount, errorCount, skippedCount;
        var ok := ProcessFile(file.attempts(k), batchSize, dryRun);
        if ok { return false; }
        totalLines, successCount, errorCount, skippedCount := savedTotal, savedSuccess, savedErrors, savedSkipped;
        failed := true;
      }
    }

    method ProcessFiles(files: seq<File>, retries: nat, batchSize: nat, dryRun: bool) returns (exhausted: nat)
      modifies this
      ensures (View(), exhausted) == RunCounts(old(View()), files, retries, batchSize, dryRun)
      ensures processedFiles == old(processedFiles) + |files|
      ensures processedBytes == old(processedBytes) + Bytes(files)
    {
      exhausted := 0;
      for i := 0 to |files|
        invariant (View(), exhausted) == RunCounts(old(View()), files[..i], retries, batchSize, dryRun)
        invariant processedFiles == old(processedFiles) + i
        invariant processedBytes == old(processedBytes) + Bytes(files[..i])
      {
        assert files[..i + 1][..i] == files[..i];
        var failed := ProcessWithRetries(files[i], retries, batchSize, dryRun);
        if failed {
          errorCount := errorCount + 1;
          exhausted := exhausted + 1;
        }
        processedFiles := processedFiles + 1;
        processedBytes := processedBytes + files[i].size;
      }
      assert files[..|files|] == files;
    }

    method AccountUndelivered(undelivered: nat)
      modifies this`successCount, this`errorCount
      ensures View() == Undelivered(old(View()), undelivered)
    {
      var moved: int := undelivered;
      if moved > successCount { moved := successCount; }
      successCount := successCount - moved;
      errorCount := errorCount + moved;
    }
  }

  // ----- conservation

  function Accounted(c: Counts): int { c.success + c.errors + c.skipped }

  /** Every message of a batch is counted exactly once, also when the batch is aborted. */
  lemma {:induction false} BatchConserves(c: Counts, batch: seq<Message>, dryRun: bool)
    ensures var c' := BatchCounts(c, batch, dryRun);
      && Accounted(c') == Accounted(c) + |batch| && c'.total == c.total
      && c'.success >= c.success && c'.queued >= c.queued
      && (!dryRun ==> c'.success - c.success == c'.queued - c.queued)
    decreases |batch|
  {
    if batch != [] {
      var m := batch[0];
      if m.route.DropByRule? {
        BatchConserves(c.(skipped := c.skipped + 1), batch[1..], dryRun);
      } else if m.route.NoRoute? {
        BatchConserves(c.(errors := c.errors + 1), batch[1..], dryRun);
      } else if !Aborts(m, dryRun) {
        BatchConserves(c.(success := c.success + 1, queued := if dryRun then c.queued else c.queued + 1),
                       batch[1..], dryRun);
      }
    }
  }

  lemma {:induction false} LinesConserve(c: Counts, pending: seq<Message>, lines: seq<Line>, batchSize: nat, dryRun: bool)
    ensures var c' := LineCounts(c, pending, lines, batchSize, dryRun);
      && Accounted(c') - c'.total == Accounted(c) + |pending| - c.total && c'.total == c.total + |lines|
      && c'.success >= c.success && c'.queued >= c.queued
      && (!dryRun ==> c'.success - c.success == c'.queued - c.queued)
    decreases |lines|
  {
    if lines == [] {
      BatchConserves(c, pending, dryRun);
    } else {
      var c1 := c.(total := c.total + 1);
      match lines[0] {
        case Unparsable => LinesConserve(c1.(errors := c1.errors + 1), pending, lines[1..], batchSize, dryRun);
        case Filtered => LinesConserve(c1.(skipped := c1.skipped + 1), pending, lines[1..], batchSize, dryRun);
        case Selected(m) =>
          if |pending| + 1 >= batchSize {
            BatchConserves(c1, pending + [m], dryRun);
            LinesConserve(BatchCounts(c1, pending + [m], dryRun), [], lines[1..], batchSize, dryRun);
          } else {
            LinesConserve(c1, pending + [m], lines[1..], batchSize, dryRun);
          }
      }
    }
  }

  /** The books balance: every line is accounted for once, with one more error for each
      file given up, and no success is claimed beyond what the producer was handed. */
  predicate Balanced(c: Counts, exhausted: nat, dryRun: bool) {
    && Accounted(c) == c.total + exhausted
    && c.success >= 0
    && (!dryRun ==> c.success <= c.queued)
  }

  lemma {:induction false} FileBalances(c: Counts, exhausted: nat, file: File, k: nat, retries: nat, batchSize: nat, dryRun: bool)
    requires k <= retries && Balanced(c, exhausted, dryRun)
    ensures Balanced(FileCounts(c, file, k, retries, batchSize, dryRun).0, exhausted, dryRun)
    decreases retries - k
  {
    if k < retries {
      var a := file.attempts(k);
      if a.Scanned? { LinesConserve(c, [], a.lines, batchSize, dryRun); }
      var (c1, ok) := AttemptCounts(c, a, batchSize, dryRun);
      if !ok { FileBalances(c.(queued := c1.queued), exhausted, file, k + 1, retries, batchSize, dryRun); }
    }
  }

  lemma {:induction false} RunBalances(files: seq<File>, retries: nat, batchSize: nat, dryRun: bool)
    ensures var (c, exhausted) := RunCounts(Counts(0, 0, 0, 0, 0), files, retries, batchSize, dryRun);
      Balanced(c, exhausted, dryRun)
  {
    if files != [] {
      var n := |files| - 1;
      RunBalances(files[..n], retries, batchSize, dryRun);
      var (before, exhausted) := RunCounts(Counts(0, 0, 0, 0, 0), files[..n], retries, batchSize, dryRun);
      FileBalances(before, exhausted, files[n], 0, retries, batchSize, dryRun);
    }
  }

  /** At the end of every worker run, after batches, aborted batches, retries and the final
      drain, the reported counters add up to the lines read plus the files given up, and
      the reported successes are at most the messages that left the producer. */
  lemma {:induction false} ReportBalances(files: seq<File>, retries: nat, batchSize: nat, dryRun: bool, undelivered: nat)
    ensures var (c, exhausted) := RunCounts(Counts(0, 0, 0, 0, 0), files, retries, batchSize, dryRun);
      var report := Undelivered(c, undelivered);
      && Accounted(report) == report.total + exhausted && report.success >= 0
      && (!dryRun && undelivered <= c.queued ==> report.success <= c.queued - undelivered)
  {
    RunBalances(files, retries, batchSize, dryRun);
    var (c, exhausted) := RunCounts(Counts(0, 0, 0, 0, 0), files, retries, batchSize, dryRun);
    UndeliveredBalances(c, exhausted, dryRun, undelivered);
  }

  lemma UndeliveredBalances(c: Counts, exhausted: nat, dryRun: bool, undelivered: nat)
    requires Balanced(c, exhausted, dryRun)
    ensures var report := Undelivered(c, undelivered);
      && Accounted(report) == report.total + exhausted && report.success >= 0
      && (!dryRun && undelivered <= c.queued ==> report.success <= c.queued - undelivered)
  {
  }

  /** The messages of a batch before position n, by what became of them. */
  function Delivered(batch: seq<Message>, n: nat): nat
    requires n <= |batch|
  {
    if n == 0 then 0 else Delivered(batch, n - 1) + if batch[n - 1].route.Deliver? then 1 else 0
  }

  function Dropped(batch: seq<Message>, n: nat): nat
    requires n <= |batch|
  {
    if n == 0 then 0 else Dropped(batch, n - 1) + if batch[n - 1].route.DropByRule? then 1 else 0
  }

  /** The batch runs to position n, where it is aborted unless that is its end. */
  predicate RunsTo(batch: seq<Message>, dryRun: bool, n: nat) {
    && n <= |batch|
    && (forall i | 0 <= i < n :: batch[i].route.Deliver? ==> batch[i].marshals && (dryRun || batch[i].produces))
    && (n < |batch| ==> batch[n].route.Deliver? && !(batch[n].marshals && (dryRun || batch[n].produces)))
  }

  /** Up to the abort each message joins the counter its route says; the aborted one and the
      rest join the errors, and none of them reaches the producer. */
  lemma {:induction false} AbortedRestIsError(c: Counts, batch: seq<Message>, dryRun: bool, n: nat)
    requires RunsTo(batch, dryRun, n)
    ensures var c' := BatchCounts(c, batch, dryRun);
      && c'.success == c.success + Delivered(batch, n)
      && c'.skipped == c.skipped + Dropped(batch, n)
      && c'.errors == c.errors + (|batch| - Delivered(batch, n) - Dropped(batch, n))
      && c'.queued == c.queued + if dryRun then 0 else Delivered(batch, n)
    decreases |batch|
  {
    if n > 0 {
      var m, rest := batch[0], batch[1..];
      FirstOut(batch, n);
      assert RunsTo(rest, dryRun, n - 1);
      match m.route {
        case DropByRule => AbortedRestIsError(c.(skipped := c.skipped + 1), rest, dryRun, n - 1);
        case NoRoute => AbortedRestIsError(c.(errors := c.errors + 1), rest, dryRun, n - 1);
        case Deliver =>
          AbortedRestIsError(c.(success := c.success + 1, queued := if dryRun then c.queued else c.queued + 1), rest, dryRun, n - 1);
      }
    }
  }

  lemma {:induction false} FirstOut(batch: seq<Message>, n: nat)
    requires 0 < n <= |batch|
    ensures Delivered(batch, n) == Delivered(batch[1..], n - 1) + if batch[0].route.Deliver? then 1 else 0
    ensures Dropped(batch, n) == Dropped(batch[1..], n - 1) + if batch[0].route.DropByRule? then 1 else 0
  {
    if n > 1 { FirstOut(batch, n - 1); }
  }

  /** The first attempt at the file reads it to the end. */
  predicate ReadAtOnce(file: File) {
    file.attempts(0).Scanned? && !file.attempts(0).readError
  }

  /** When no attempt is rolled back, the reported successes are exactly the messages that
      left the producer. */
  lemma {:induction false} ReportIsExact(files: seq<File>, retries: nat, batchSize: nat, undelivered: nat)
    requires retries > 0 && forall i | 0 <= i < |files| :: ReadAtOnce(files[i])
    ensures var (c, exhausted) := RunCounts(Counts(0, 0, 0, 0, 0), files, retries, batchSize, false);
      && exhausted == 0 && c.success == c.queued >= 0
      && (undelivered <= c.queued ==> Undelivered(c, undelivered).success == c.queued - undelivered)
    decreases |files|
  {
    if files != [] {
      var n := |files| - 1;
      ReportIsExact(files[..n], retries, batchSize, undelivered);
      var before := RunCounts(Counts(0, 0, 0, 0, 0), files[..n], retries, batchSize, false).0;
      assert ReadAtOnce(files[n]);
      LinesConserve(before, [], files[n].attempts(0).lines, batchSize, false);
    }
  }

  // ----- without aborted batches the batch size does not matter

  function CountLines(lines: seq<Line>, p: Line -> bool): nat {
    if lines == [] then 0 else (if p(lines[0]) then 1 else 0) + CountLines(lines[1..], p)
  }

  predicate IsDelivered(l: Line) { l.Selected? && l.message.route.Deliver? }

  predicate IsSkipped(l: Line) { l.Filtered? || (l.Selected? && l.message.route.DropByRule?) }

  predicate NoAbort(lines: seq<Line>, dryRun: bool) {
    forall i | 0 <= i < |lines| :: lines[i].Selected? ==> !Aborts(lines[i].message, dryRun)
  }

  function AsLines(batch: seq<Message>): seq<Line> {
    seq(|batch|, i requires 0 <= i < |batch| => Selected(batch[i]))
  }

  lemma {:induction false} CleanBatch(c: Counts, batch: seq<Message>, dryRun: bool)
    requires NoAbort(AsLines(batch), dryRun)
    ensures var c' := BatchCounts(c, batch, dryRun);
      && c'.success == c.success + CountLines(AsLines(batch), IsDelivered)
      && c'.skipped == c.skipped + CountLines(AsLines(batch), IsSkipped)
    decreases |batch|
  {
    if batch != [] {
      var m := batch[0];
      assert AsLines(batch)[0] == Selected(m) && AsLines(batch)[1..] == AsLines(batch[1..]);
      match m.route {
        case DropByRule => CleanBatch(c.(skipped := c.skipped + 1), batch[1..], dryRun);
        case NoRoute => CleanBatch(c.(errors := c.errors + 1), batch[1..], dryRun);
        case Deliver =>
          CleanBatch(c.(success := c.success + 1, queued := if dryRun then c.queued else c.queued + 1), batch[1..], dryRun);
      }
    }
  }

  lemma {:induction false} CountMore(lines: seq<Line>, l: Line, p: Line -> bool)
    ensures CountLines(lines + [l], p) == CountLines(lines, p) + if p(l) then 1 else 0
  {
    if lines == [] {
      assert lines + [l] == [l] && [l][1..] == [];
    } else {
      assert (lines + [l])[1..] == lines[1..] + [l];
      CountMore(lines[1..], l, p);
    }
  }

  /** When nothing aborts, the counters of a file are the numbers of its delivered and
      skipped lines, for every batch size. */
  lemma {:induction false} CleanLines(c: Counts, pending: seq<Message>, lines: seq<Line>, batchSize: nat, dryRun: bool)
    requires NoAbort(AsLines(pending), dryRun) && NoAbort(lines, dryRun)
    ensures var c' := LineCounts(c, pending, lines, batchSize, dryRun);
      && c'.success == c.success + CountLines(AsLines(pending), IsDelivered) + CountLines(lines, IsDelivered)
      && c'.skipped == c.skipped + CountLines(AsLines(pending), IsSkipped) + CountLines(lines, IsSkipped)
    decreases |lines|
  {
    if lines == [] {
      CleanBatch(c, pending, dryRun);
    } else {
      var c1 := c.(total := c.total + 1);
      match lines[0] {
        case Unparsable => CleanLines(c1.(errors := c1.errors + 1), pending, lines[1..], batchSize, dryRun);
        case Filtered => CleanLines(c1.(skipped := c1.skipped + 1), pending, lines[1..], batchSize, dryRun);
        case Selected(m) =>
          assert AsLines(pending + [m]) == AsLines(pending) + [lines[0]];
          CountMore(AsLines(pending), lines[0], IsDelivered);
          CountMore(AsLines(pending), lines[0], IsSkipped);
          if |pending| + 1 >= batchSize {
            CleanBatch(c1, pending + [m], dryRun);
            CleanLines(BatchCounts(c1, pending + [m], dryRun), [], lines[1..], batchSize, dryRun);
          } else {
            CleanLines(c1, pending + [m], lines[1..], batchSize, dryRun);
          }
      }
    }
  }
}
