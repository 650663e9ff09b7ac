/** Fencing, status restoration and termination of reverse-sync status checks, over every
    run of the controller's and the worker's statements on one task row. */
module ReverseRuns {
  import opened Common
  import opened ReverseTask

  /** The row, the clock, and the attempts for which a pod has been asked for. */
  datatype Machine = Machine(row: Row, clock: real, launched: set<nat>)

  datatype Step =
    | Tick(elapsed: real)
    | UserRefresh(controlMatches: bool)
    | UserCancel
    | SweepRunning
    | Schedule(controlMatches: bool)
    | NoticeFailure(worker: string, allowActive: bool, staleBefore: Option<real>)
    | NoticeRunFailure(pod: string)
    | WorkerClaims(attempt: nat, controlMatches: bool)
    | WorkerBeats(worker: string)
    | WorkerWaits(worker: string)
    | WorkerFails(worker: string, stop: bool)
    | WorkerFinishes(worker: string, status: Status)

  /** What the step writes to the row, or None. */
  function Effect(name: Naming, m: Machine, step: Step): Option<Row> {
    match step
    case Tick(_) => None
    case UserRefresh(ok) => Refresh(m.row, ok, m.clock)
    case UserCancel => Cancel(m.row, m.clock)
    case SweepRunning => CloseStale(m.row, m.clock)
    case Schedule(_) => None
    case NoticeFailure(w, allowActive, stale) => RecordFailure(name, m.row, w, allowActive, stale, m.clock)
    case NoticeRunFailure(pod) => FailRun(m.row, pod, m.clock)
    case WorkerClaims(k, ok) => Claim(m.row, name(k), k, ok, m.clock)
    case WorkerBeats(w) => Heartbeat(m.row, w, m.clock)
    case WorkerWaits(w) => Wait(m.row, w, m.clock)
    case WorkerFails(w, stop) => RefreshFailed(m.row, w, stop, m.clock)
    case WorkerFinishes(w, status) => Finish(m.row, w, status, m.clock)
  }

  /** Time moves forward, only launched pods run, and no failure is reported of a refresh
      worker that was never launched. */
  ghost predicate Enabled(name: Naming, m: Machine, step: Step) {
    match step
    case Tick(elapsed) => elapsed >= 0.0
    case NoticeFailure(w, _, _) => forall k: nat :: name(k) == w ==> k in m.launched
    case WorkerClaims(k, _) => k in m.launched
    case _ => true
  }

  function Launches(m: Machine, step: Step): set<nat> {
    match step
    case UserRefresh(ok) => if Refresh(m.row, ok, m.clock).Some? then {m.row.schedule.value.attempt + 1} else {}
    case Schedule(ok) => if Due(m.row, ok, m.clock) then {m.row.schedule.value.attempt} else {}
    case _ => {}
  }

  function Apply(name: Naming, m: Machine, step: Step): Machine {
    Machine(Coalesce(Effect(name, m, step), m.row),
            if step.Tick? then m.clock + step.elapsed else m.clock,
            m.launched + Launches(m, step))
  }

  /** The step ends the work of this worker on the row. */
  function Closes(name: Naming, m: Machine, step: Step): Option<string> {
    if Effect(name, m, step).None? then None
    else match step
      case NoticeFailure(w, _, _) => Some(w)
      case WorkerWaits(w) => Some(w)
      case WorkerFails(w, _) => Some(w)
      case WorkerFinishes(w, _) => Some(w)
      case _ => None
  }

  ghost predicate IsRun(name: Naming, m: Machine, run: seq<Step>)
    decreases |run|
  {
    run == [] || (Enabled(name, m, run[0]) && IsRun(name, Apply(name, m, run[0]), run[1..]))
  }

  function After(name: Naming, m: Machine, run: seq<Step>): Machine
    decreases |run|
  {
    if run == [] then m else After(name, Apply(name, m, run[0]), run[1..])
  }

  /** The workers whose work ended, in order. */
  function Closings(name: Naming, m: Machine, run: seq<Step>): seq<string>
    decreases |run|
  {
    if run == [] then []
    else
      var rest := Closings(name, Apply(name, m, run[0]), run[1..]);
      match Closes(name, m, run[0])
      case None => rest
      case Some(w) => [w] + rest
  }

  /** Pod names are hashes of distinct texts, taken to be distinct. */
  ghost predicate DistinctNames(name: Naming) {
    forall j: nat, k: nat :: name(j) == name(k) ==> j == k
  }

  // ----- fencing

  /** Attempt k is over for good: the row has moved on, or waits for the user. */
  predicate Over(name: Naming, row: Row, k: nat) {
    || row.schedule.None?
    || k < row.schedule.value.attempt
    || (&& k == row.schedule.value.attempt && WorkerId(row) == name(k) && !Active(row)
        && (row.schedule.value.suspended || !Open(row.status)))
  }

  /** What holds of the row in every reachable state, with the workers closed so far. */
  ghost predicate Inv(name: Naming, m: Machine, closed: set<string>) {
    && (m.row.schedule.Some? ==> m.row.schedule.value.attempt <= MAX_ATTEMPT)
    && (m.row.schedule.Some? ==> forall k | k in m.launched :: k <= m.row.schedule.value.attempt)
    && (m.row.status.Running? ==>
          m.row.schedule.None? && m.launched == {} && forall k: nat :: name(k) !in closed)
    && (forall k: nat | name(k) in closed :: Over(name, m.row, k))
    && (forall k: nat | Active(m.row) && WorkerId(m.row) == name(k) ::
          m.row.schedule.Some? && m.row.schedule.value.attempt == k && name(k) !in closed && !m.row.status.Running?)
    && (m.row.schedule.Some? && Active(m.row) ==> WorkerId(m.row) == name(m.row.schedule.value.attempt))
    && (m.row.schedule.None? && !m.row.status.Running? ==> !Open(m.row.status))
  }

  /** A task just created by its first worker, which no refresh attempt is named after. */
  ghost predicate Created(name: Naming, m: Machine) {
    && m.row.status.Running? && m.row.schedule.None? && m.launched == {}
    && m.row.worker.Some? && forall k: nat :: name(k) != m.row.worker.value.id
  }

  /** A step moves the attempt forward only, and never past the largest 32-bit integer. */
  lemma AttemptStep(name: Naming, m: Machine, step: Step)
    requires m.row.schedule.Some? ==> m.row.schedule.value.attempt <= MAX_ATTEMPT
    ensures var m' := Apply(name, m, step);
      m'.row.schedule.Some? ==>
        && m'.row.schedule.value.attempt <= MAX_ATTEMPT
        && (m.row.schedule.Some? ==> m.row.schedule.value.attempt <= m'.row.schedule.value.attempt)
  {
  }

  function ClosedAfter(name: Naming, m: Machine, step: Step, closed: set<string>): set<string> {
    var c := Closes(name, m, step);
    if c.Some? then closed + {c.value} else closed
  }

  lemma StepKeepsInv(name: Naming, m: Machine, step: Step, closed: set<string>)
    requires DistinctNames(name) && Inv(name, m, closed) && Enabled(name, m, step)
    ensures Inv(name, Apply(name, m, step), ClosedAfter(name, m, step, closed))
    ensures forall k: nat :: Closes(name, m, step) == Some(name(k)) ==> name(k) !in closed
  {
  }

  /** No refresh worker occurs twice, and none of those closed before occurs at all. */
  ghost predicate EachOnce(name: Naming, closings: seq<string>, closed: set<string>) {
    closings != [] ==>
      && (forall k: nat :: closings[0] == name(k) ==> name(k) !in closed)
      && EachOnce(name, closings[1..], closed + {closings[0]})
  }

  lemma {:induction false} EachOnceMeaning(name: Naming, closings: seq<string>, closed: set<string>, k: nat)
    requires EachOnce(name, closings, closed)
    ensures name(k) in closings ==> name(k) !in closed
    ensures forall i, j | 0 <= i < j < |closings| :: closings[i] == name(k) ==> closings[j] != name(k)
  {
    if closings != [] {
      EachOnceMeaning(name, closings[1..], closed + {closings[0]}, k);
      forall i, j | 0 <= i < j < |closings| && closings[i] == name(k) ensures closings[j] != name(k) {
        assert closings[j] == closings[1..][j - 1];
        if i > 0 { assert closings[i] == closings[1..][i - 1]; }
      }
    }
  }

  lemma {:induction false} RunClosesOnce(name: Naming, m: Machine, run: seq<Step>, closed: set<string>)
    requires DistinctNames(name) && Inv(name, m, closed) && IsRun(name, m, run)
    ensures EachOnce(name, Closings(name, m, run), closed)
    decreases |run|
  {
    if run != [] {
      StepKeepsInv(name, m, run[0], closed);
      RunClosesOnce(name, Apply(name, m, run[0]), run[1..], ClosedAfter(name, m, run[0], closed));
      var rest := Closings(name, Apply(name, m, run[0]), run[1..]);
      match Closes(name, m, run[0]) {
        case None =>
        case Some(w) => assert ([w] + rest)[1..] == rest;
      }
    }
  }

  /** Over every run from the creation of a task, no refresh worker is closed twice, by
      itself or by the controller, however many late or repeated failure notices arrive. */
  lemma ClosedOnce(name: Naming, m: Machine, run: seq<Step>, k: nat)
    requires DistinctNames(name) && Created(name, m) && IsRun(name, m, run)
    ensures var c := Closings(name, m, run);
      forall i, j | 0 <= i < j < |c| :: c[i] == name(k) ==> c[j] != name(k)
  {
    RunClosesOnce(name, m, run, {});
    EachOnceMeaning(name, Closings(name, m, run), {}, k);
  }

  lemma {:induction false} RunKeepsInv(name: Naming, m: Machine, run: seq<Step>, closed: set<string>) returns (closed': set<string>)
    requires DistinctNames(name) && Inv(name, m, closed) && IsRun(name, m, run)
    ensures Inv(name, After(name, m, run), closed')
    decreases |run|
  {
    closed' := closed;
    if run != [] {
      StepKeepsInv(name, m, run[0], closed);
      closed' := RunKeepsInv(name, Apply(name, m, run[0]), run[1..], ClosedAfter(name, m, run[0], closed));
    }
  }

  /** A delivery that is finished, or whose run died before it got a schedule. */
  predicate Settled(row: Row) {
    row.schedule.None? && !row.status.Running? && !Open(row.status)
  }

  lemma {:induction false} SettledForGood(name: Naming, m: Machine, run: seq<Step>)
    requires Settled(m.row)
    ensures Settled(After(name, m, run).row)
    decreases |run|
  {
    if run != [] { SettledForGood(name, Apply(name, m, run[0]), run[1..]); }
  }

  /** Over every run the attempt of a scheduled task never decreases and never passes the
      largest 32-bit integer. */
  lemma {:induction false} AttemptsOnlyGrow(name: Naming, m: Machine, run: seq<Step>, closed: set<string>)
    requires DistinctNames(name) && Inv(name, m, closed) && IsRun(name, m, run) && m.row.schedule.Some?
    ensures var row := After(name, m, run).row;
      row.schedule.Some? ==> m.row.schedule.value.attempt <= row.schedule.value.attempt <= MAX_ATTEMPT
    decreases |run|
  {
    if run != [] {
      var m' := Apply(name, m, run[0]);
      StepKeepsInv(name, m, run[0], closed);
      AttemptStep(name, m, run[0]);
      if m'.row.schedule.Some? {
        AttemptsOnlyGrow(name, m', run[1..], ClosedAfter(name, m, run[0], closed));
      } else {
        SettledForGood(name, m', run[1..]);
      }
    }
  }

  // ----- status restoration

  /** The status the row comes back to when the current check fails. */
  function RestStatus(row: Row): Status {
    if row.status.Cancelled? then Cancelled else StatusBefore(row)
  }

  /** A scheduled row: not in its first run, and an active worker remembers the status. */
  predicate Scheduled(row: Row) {
    row.schedule.Some? && !row.status.Running? && (Active(row) ==> row.worker.value.previousStatus.Some?)
  }

  predicate ChecksFail(run: seq<Step>) {
    forall i | 0 <= i < |run| :: !run[i].WorkerWaits? && !run[i].WorkerFinishes?
  }

  predicate Cancels(m: Machine, step: Step) {
    step.UserCancel? && Cancel(m.row, m.clock).Some?
  }

  predicate CancelledDuring(name: Naming, m: Machine, run: seq<Step>)
    decreases |run|
  {
    run != [] && (Cancels(m, run[0]) || CancelledDuring(name, Apply(name, m, run[0]), run[1..]))
  }

  lemma RestStep(name: Naming, m: Machine, step: Step)
    requires Scheduled(m.row) && !step.WorkerWaits? && !step.WorkerFinishes?
    ensures Scheduled(Apply(name, m, step).row)
    ensures RestStatus(Apply(name, m, step).row) == if Cancels(m, step) then Cancelled else RestStatus(m.row)
  {
  }

  lemma {:induction false} RestStatusKept(name: Naming, m: Machine, run: seq<Step>)
    requires Scheduled(m.row) && ChecksFail(run)
    ensures Scheduled(After(name, m, run).row)
    ensures RestStatus(After(name, m, run).row)
         == if CancelledDuring(name, m, run) then Cancelled else RestStatus(m.row)
    decreases |run|
  {
    if run != [] {
      RestStep(name, m, run[0]);
      RestStatusKept(name, Apply(name, m, run[0]), run[1..]);
    }
  }

  /** After any number of refreshes, claims and failed checks, recording one more failure
      brings back the status the task had at first, or leaves it cancelled if it was
      cancelled on the way. */
  lemma FailedChecksRestoreStatus(name: Naming, m: Machine, run: seq<Step>, notice: Step)
    requires Scheduled(m.row) && ChecksFail(run)
    requires notice.NoticeFailure? && Effect(name, After(name, m, run), notice).Some?
    ensures Effect(name, After(name, m, run), notice).value.status
         == if CancelledDuring(name, m, run) then Cancelled else RestStatus(m.row)
  {
    RestStatusKept(name, m, run);
  }

  // ----- cancellation

  /** A cancelled task stays exactly as it is until the user refreshes it; if it was
      cancelled under an active worker, no refresh succeeds either. */
  lemma {:induction false} CancelledIsFinal(name: Naming, m: Machine, run: seq<Step>)
    requires m.row.status.Cancelled?
    requires Active(m.row) || forall i | 0 <= i < |run| :: !run[i].UserRefresh?
    ensures After(name, m, run).row == m.row
    decreases |run|
  {
    if run != [] {
      assert Apply(name, m, run[0]).row == m.row;
      CancelledIsFinal(name, Apply(name, m, run[0]), run[1..]);
    }
  }

  /** A refresh can bring the cancelled row back. */
  predicate Refreshable(row: Row) {
    !Active(row) && row.schedule.Some? && row.schedule.value.attempt < MAX_ATTEMPT
  }

  lemma {:induction false} StuckForGood(name: Naming, m: Machine, run: seq<Step>)
    requires m.row.status.Cancelled? && !Refreshable(m.row)
    ensures After(name, m, run).row == m.row
    decreases |run|
  {
    if run != [] {
      assert Apply(name, m, run[0]).row == m.row;
      StuckForGood(name, Apply(name, m, run[0]), run[1..]);
    }
  }

  /** A cancelled row can change again if and only if no worker was active on it, it has a
      schedule, and attempts are left. */
  lemma {:induction false} CancelledChangesIff(name: Naming, m: Machine)
    requires m.row.status.Cancelled?
    ensures (exists run :: IsRun(name, m, run) && After(name, m, run).row != m.row) <==> Refreshable(m.row)
  {
    if Refreshable(m.row) {
      RunMore(name, m, [], UserRefresh(true));
      var run := [] + [UserRefresh(true)];
      assert After(name, m, run).row.status.Pending?;
      assert IsRun(name, m, run) && After(name, m, run).row != m.row;
    } else {
      forall run ensures After(name, m, run).row == m.row { StuckForGood(name, m, run); }
    }
  }

  lemma {:induction false} RunMore(name: Naming, m: Machine, run: seq<Step>, step: Step)
    requires IsRun(name, m, run) && Enabled(name, After(name, m, run), step)
    ensures IsRun(name, m, run + [step]) && After(name, m, run + [step]) == Apply(name, After(name, m, run), step)
    decreases |run|
  {
    if run == [] {
      assert run + [step] == [step] && [step][1..] == [];
    } else {
      assert (run + [step])[1..] == run[1..] + [step];
      RunMore(name, Apply(name, m, run[0]), run[1..], step);
    }
  }

  /** Such a row is reached: the first worker leaves the delivery for later, a refresh
      worker claims it, and the user cancels under that worker. Attempts are left, yet no
      run changes the row again. */
  lemma {:induction false} CancelUnderWorkerSticks(name: Naming, w: string) returns (m: Machine, run: seq<Step>)
    requires forall k: nat :: name(k) != w
    ensures Created(name, m) && IsRun(name, m, run)
    ensures var row := After(name, m, run).row;
      && row.status.Cancelled? && Active(row) && row.schedule.Some? && row.schedule.value.attempt < MAX_ATTEMPT
      && forall more :: After(name, After(name, m, run), more).row == row
  {
    m := Machine(Row(Running, None, Some(Worker(w, true, None)), 0.0), 0.0, {});
    run := [];
    DelayBounds(0);
    RunMore(name, m, run, WorkerWaits(w));
    run := run + [WorkerWaits(w)];
    RunMore(name, m, run, Tick(60.0));
    run := run + [Tick(60.0)];
    RunMore(name, m, run, Step.Schedule(true));
    run := run + [Step.Schedule(true)];
    var due := After(name, m, run);
    assert due.row.status.Pending? && !Active(due.row) && 0 in due.launched && Due(due.row, true, due.clock);
    run := ClaimedThenCancelled(name, m, run);
    var t := After(name, m, run);
    forall more ensures After(name, t, more).row == t.row { StuckForGood(name, t, more); }
  }

  lemma {:induction false} ClaimedThenCancelled(name: Naming, m: Machine, run: seq<Step>) returns (run': seq<Step>)
    requires IsRun(name, m, run)
    requires var t := After(name, m, run);
      Due(t.row, true, t.clock) && t.row.schedule.value.attempt in t.launched
    ensures IsRun(name, m, run')
    ensures var t, t' := After(name, m, run), After(name, m, run');
      t'.row.status.Cancelled? && Active(t'.row) && t'.row.schedule == t.row.schedule
  {
    var t := After(name, m, run);
    var claim := WorkerClaims(t.row.schedule.value.attempt, true);
    RunMore(name, m, run, claim);
    RunMore(name, m, run + [claim], UserCancel);
    run' := run + [claim] + [UserCancel];
  }

  // ----- termination of automatic checks

  /** A check that is due automatically is due by the deadline. */
  predicate DueInTime(row: Row) {
    row.schedule.Some? && row.schedule.value.deadline.Some? && !row.schedule.value.suspended && Open(row.status)
    ==> row.schedule.value.nextCheckAt <= row.schedule.value.deadline.value
  }

  lemma {:induction false} ChecksAreDueInTime(name: Naming, m: Machine, run: seq<Step>)
    requires m.row.schedule.None? || DueInTime(m.row)
    ensures After(name, m, run).row.schedule.None? || DueInTime(After(name, m, run).row)
    decreases |run|
  {
    if run != [] {
      assert forall k: nat :: Delay(k) <= 60.0;
      ChecksAreDueInTime(name, Apply(name, m, run[0]), run[1..]);
    }
  }

  /** Nothing more happens to the row unless the user steps in. */
  predicate AtRest(name: Naming, m: Machine) {
    || (!Open(m.row.status) && !m.row.status.Running?)
    || (&& m.row.schedule.Some? && m.row.schedule.value.suspended && !Active(m.row)
        && (m.row.schedule.value.attempt !in m.launched || WorkerId(m.row) == name(m.row.schedule.value.attempt)))
  }

  /** After n closings since `start`, at least 39 minutes apart while the window is open. */
  predicate InWindow(name: Naming, m: Machine, n: nat, start: real) {
    if AtRest(name, m) then n <= 38
    else
      && n <= 37 && m.clock >= start
      && m.row.schedule.Some? && m.row.schedule.value.deadline.Some?
      && m.row.schedule.value.deadline.value <= start + RETRY_WINDOW
      && (n > 0 ==>
            var s := m.row.schedule.value;
            && s.nextCheckAt >= Min(start + 39.0 * n as real, s.deadline.value)
            && (Active(m.row) || s.attempt in m.launched ==> m.clock >= s.nextCheckAt))
  }

  /** A row at rest closes no worker, and a row that closes one had it launched. */
  lemma ClosingIsDue(name: Naming, m: Machine, step: Step, closed: set<string>)
    requires Inv(name, m, closed) && Enabled(name, m, step) && Closes(name, m, step).Some? && m.row.schedule.Some?
    ensures !AtRest(name, m)
    ensures Active(m.row) || m.row.schedule.value.attempt in m.launched
  {
  }

  /** Closing a worker ends the automatic checks or puts the next one off. */
  lemma ClosingPutsOff(name: Naming, m: Machine, step: Step, closed: set<string>)
    requires Inv(name, m, closed) && Enabled(name, m, step) && Closes(name, m, step).Some?
    requires m.row.schedule.Some? && m.row.schedule.value.deadline.Some?
    ensures var m', s := Apply(name, m, step), m.row.schedule.value;
      || AtRest(name, m')
      || (&& m.clock < s.deadline.value && !Active(m'.row)
          && m'.row.schedule.Some? && m'.row.schedule.value.deadline == s.deadline
          && m'.row.schedule.value.attempt !in m'.launched
          && m'.row.schedule.value.nextCheckAt >= Min(m.clock + 39.0, s.deadline.value))
  {
    DelayBounds(m.row.schedule.value.attempt + 1);
  }

  lemma WindowStep(name: Naming, m: Machine, step: Step, closed: set<string>, n: nat, start: real)
    requires Inv(name, m, closed) && Enabled(name, m, step) && !step.UserRefresh?
    requires InWindow(name, m, n, start)
    ensures InWindow(name, Apply(name, m, step), if Closes(name, m, step).Some? then n + 1 else n, start)
  {
    var m' := Apply(name, m, step);
    if Closes(name, m, step).Some? && m.row.schedule.Some? {
      ClosingIsDue(name, m, step, closed);
      ClosingPutsOff(name, m, step, closed);
      if !AtRest(name, m') {
        assert m.clock >= start + 39.0 * n as real;
        assert 39.0 * n as real < 1440.0;
        assert n <= 36;
        assert start + 39.0 * (n + 1) as real <= m.clock + 39.0;
      }
    }
  }

  /** Automatic checks end: in every run without a user refresh, from a moment when the
      deadline is at most a day away, at most 38 workers finish their work on the task. */
  lemma {:induction false} ChecksEnd(name: Naming, m: Machine, run: seq<Step>, closed: set<string>, n: nat, start: real)
    requires DistinctNames(name) && Inv(name, m, closed) && IsRun(name, m, run)
    requires forall i | 0 <= i < |run| :: !run[i].UserRefresh?
    requires InWindow(name, m, n, start)
    ensures n + |Closings(name, m, run)| <= 38
    decreases |run|
  {
    if run != [] {
      WindowStep(name, m, run[0], closed, n, start);
      StepKeepsInv(name, m, run[0], closed);
      ChecksEnd(name, Apply(name, m, run[0]), run[1..], ClosedAfter(name, m, run[0], closed),
                if Closes(name, m, run[0]).Some? then n + 1 else n, start);
    }
  }

  /** After a user refresh, at any point in the life of a task, at most 38 workers finish
      their work on it before the checks stop for good or the user refreshes again. */
  lemma ChecksEndAfterRefresh(name: Naming, m: Machine, before: seq<Step>, ok: bool, run: seq<Step>)
    requires DistinctNames(name) && Created(name, m) && IsRun(name, m, before)
    requires Effect(name, After(name, m, before), UserRefresh(ok)).Some?
    requires var m1 := Apply(name, After(name, m, before), UserRefresh(ok));
      IsRun(name, m1, run) && forall i | 0 <= i < |run| :: !run[i].UserRefresh?
    ensures var m1 := Apply(name, After(name, m, before), UserRefresh(ok));
      |Closings(name, m1, run)| <= 38
  {
    var closed := RunKeepsInv(name, m, before, {});
    var m0 := After(name, m, before);
    StepKeepsInv(name, m0, UserRefresh(ok), closed);
    var m1 := Apply(name, m0, UserRefresh(ok));
    ChecksEnd(name, m1, run, ClosedAfter(name, m0, UserRefresh(ok), closed), 0, m1.clock);
  }

  lemma {:induction false} SettledClosesNothing(name: Naming, m: Machine, run: seq<Step>)
    requires Settled(m.row)
    ensures Closings(name, m, run) == []
    decreases |run|
  {
    if run != [] { SettledClosesNothing(name, Apply(name, m, run[0]), run[1..]); }
  }

  /** The first run of a task is under way. */
  ghost predicate FirstRun(m: Machine) {
    m.row.status.Running? && m.row.schedule.None?
  }

  /** A step of the first run lets it go on, settles the task, or opens its window. */
  lemma FirstRunStep(name: Naming, m: Machine, step: Step)
    requires FirstRun(m) && !step.UserRefresh?
    ensures var m' := Apply(name, m, step);
      || (FirstRun(m') && Closes(name, m, step).None?)
      || Settled(m'.row)
      || InWindow(name, m', 0, m'.clock)
  {
  }

  lemma {:induction false} FirstRunEnds(name: Naming, m: Machine, run: seq<Step>, closed: set<string>)
    requires DistinctNames(name) && Inv(name, m, closed) && IsRun(name, m, run) && FirstRun(m)
    requires forall i | 0 <= i < |run| :: !run[i].UserRefresh?
    ensures |Closings(name, m, run)| <= 39
    decreases |run|
  {
    if run != [] {
      var m' := Apply(name, m, run[0]);
      var closed' := ClosedAfter(name, m, run[0], closed);
      StepKeepsInv(name, m, run[0], closed);
      FirstRunStep(name, m, run[0]);
      if Settled(m'.row) {
        SettledClosesNothing(name, m', run[1..]);
      } else if FirstRun(m') {
        FirstRunEnds(name, m', run[1..], closed');
      } else {
        ChecksEnd(name, m', run[1..], closed', 0, m'.clock);
      }
    }
  }

  /** A task that is never refreshed ends as well: from its creation at most 39 workers, the
      first one and 38 status checks, finish their work on it. */
  lemma ChecksEndFromCreation(name: Naming, m: Machine, run: seq<Step>)
    requires DistinctNames(name) && Created(name, m) && IsRun(name, m, run)
    requires forall i | 0 <= i < |run| :: !run[i].UserRefresh?
    ensures |Closings(name, m, run)| <= 39
  {
    FirstRunEnds(name, m, run, {});
  }

  // ----- automatic checks go on

  /** The row waits for its next automatic check. */
  predicate AwaitsCheck(row: Row) {
    Open(row.status) && !Active(row) && row.schedule.Some? && !row.schedule.value.suspended
  }

  /** An awaited check is launched once its time has come, and its worker gets the row. */
  lemma AwaitedCheckHappens(name: Naming, m: Machine, elapsed: real)
    requires AwaitsCheck(m.row) && elapsed >= 0.0 && m.clock + elapsed >= m.row.schedule.value.nextCheckAt
    ensures var k := m.row.schedule.value.attempt;
      var ticked := Apply(name, m, Tick(elapsed));
      var launched := Apply(name, ticked, Step.Schedule(true));
      && k in launched.launched && Enabled(name, launched, WorkerClaims(k, true))
      && var claimed := Apply(name, launched, WorkerClaims(k, true)).row;
         Active(claimed) && WorkerId(claimed) == name(k) && claimed.schedule == m.row.schedule
  {
  }

  /** Before its time the scheduler leaves it alone. */
  lemma EarlyCheckWaits(name: Naming, m: Machine, ok: bool)
    requires m.row.schedule.Some? && m.clock < m.row.schedule.value.nextCheckAt
    ensures Apply(name, m, Step.Schedule(ok)) == m
  {
  }

  /** The window of automatic checks is open, and attempts are left. */
  predicate WindowOpen(m: Machine) {
    && m.row.schedule.Some? && m.row.schedule.value.attempt < 2147483647
    && (m.row.schedule.value.deadline.Some? ==> m.clock < m.row.schedule.value.deadline.value)
  }

  /** When the check after attempt k is to happen, at the earliest deadline or delay. */
  function NextTime(m: Machine): real
    requires m.row.schedule.Some?
  {
    var s := m.row.schedule.value;
    var next := m.clock + Min(60.0, 30.0 * Pow13(s.attempt + 1));
    if s.deadline.Some? then Min(next, s.deadline.value) else next
  }

  /** Exactly which failure notices are recorded: those for the worker the row waits for, the
      active one if the notice may speak of it, or else the one of the current attempt that
      has not been recorded yet; and, from a sweep, only on rows left alone since its cutoff. */
  lemma FailureRecordedIff(name: Naming, m: Machine, w: string, allowActive: bool, cutoff: Option<real>)
    ensures Effect(name, m, NoticeFailure(w, allowActive, cutoff)).Some? <==>
      && (m.row.status.Pending? || m.row.status.Waiting?) && m.row.schedule.Some?
      && (cutoff.Some? ==> m.row.updatedAt < cutoff.value)
      && (if m.row.worker.Some? && m.row.worker.value.active then allowActive && m.row.worker.value.id == w
          else name(m.row.schedule.value.attempt) == w && (if m.row.worker.Some? then m.row.worker.value.id else "") != w)
      && !StatusBefore(m.row).Running? && !StatusBefore(m.row).Complete?
  {
  }

  /** A recorded failure in the open window moves on to the next attempt, puts its check off
      by the delay or to the deadline, and suspends nothing; out of the window it suspends. */
  lemma FailureGoesOn(name: Naming, m: Machine, notice: Step)
    requires notice.NoticeFailure? && Effect(name, m, notice).Some?
    ensures var s, s' := m.row.schedule.value, Effect(name, m, notice).value.schedule.value;
      && s'.deadline == s.deadline
      && (WindowOpen(m) ==> s'.attempt == s.attempt + 1 && s'.nextCheckAt == NextTime(m) && s'.suspended == s.suspended)
      && (!WindowOpen(m) ==> s'.suspended && s'.attempt == if s.attempt < 2147483647 then s.attempt + 1 else s.attempt)
      && (s.deadline.Some? && m.clock >= s.deadline.value ==> s'.nextCheckAt == m.clock + Min(60.0, 30.0 * Pow13(s'.attempt)))
  {
  }

  /** A worker that finds the provider busy, or fails without calling the checks off, does
      the same; when the window is over, the one fails the task and the other suspends. */
  lemma WorkerGoesOn(name: Naming, m: Machine, step: Step)
    requires (step.WorkerWaits? || step.WorkerFails?) && Effect(name, m, step).Some? && m.row.schedule.Some?
    ensures var s, row := m.row.schedule.value, Effect(name, m, step).value;
      && row.schedule.Some? && row.schedule.value.deadline == s.deadline
      && (WindowOpen(m) ==> row.schedule.value.attempt == s.attempt + 1 && row.schedule.value.nextCheckAt == NextTime(m))
      && (WindowOpen(m) ==> (row.schedule.value.suspended <==> step.WorkerFails? && step.stop))
      && (!WindowOpen(m) ==> if step.WorkerWaits? then row.status.Failed? else row.schedule.value.suspended)
      && (step.WorkerWaits? && WindowOpen(m) ==> row.status.Pending?)
      && (step.WorkerWaits? ==> !row.schedule.value.suspended)
  {
  }

  /** The first worker that leaves a delivery for later opens a window of a day, with the
      first check half an hour on. */
  lemma FirstWaitOpensWindow(name: Naming, m: Machine, w: string)
    requires m.row.status.Running? && m.row.schedule.None? && Active(m.row) && WorkerId(m.row) == w
    ensures var m' := Apply(name, m, WorkerWaits(w));
      && m'.row.status.Pending? && AwaitsCheck(m'.row)
      && m'.row.schedule.value.attempt == 0 && m'.row.schedule.value.nextCheckAt == m.clock + 30.0
      && m'.row.schedule.value.deadline == Some(m.clock + 1440.0)
  {
  }

  /** So in the open window a failure of the awaited worker is followed by the launch of the
      next attempt, whose worker gets the row. */
  lemma RetryFollowsFailure(name: Naming, m: Machine, notice: Step, elapsed: real)
    requires notice.NoticeFailure? && Effect(name, m, notice).Some? && WindowOpen(m) && !m.row.schedule.value.suspended
    requires Open(StatusBefore(m.row)) && elapsed >= 0.0 && m.clock + elapsed >= NextTime(m)
    ensures var k := m.row.schedule.value.attempt + 1;
      var failed := Apply(name, m, notice);
      var launched := Apply(name, Apply(name, failed, Tick(elapsed)), Step.Schedule(true));
      && AwaitsCheck(failed.row) && k in launched.launched
      && var claimed := Apply(name, launched, WorkerClaims(k, true)).row;
         Active(claimed) && WorkerId(claimed) == name(k)
  {
    var failed := Apply(name, m, notice);
    FailureGoesOn(name, m, notice);
    assert failed.clock == m.clock;
    AwaitedCheckHappens(name, failed, elapsed);
  }

  /** A user refresh starts a check at once, whatever was suspended, with a new day ahead. */
  lemma RefreshStartsCheck(name: Naming, m: Machine)
    requires Effect(name, m, UserRefresh(true)).Some?
    ensures var k := m.row.schedule.value.attempt + 1;
      var m' := Apply(name, m, UserRefresh(true));
      && AwaitsCheck(m'.row) && k in m'.launched
      && m'.row.schedule.value.deadline == Some(m.clock + 1440.0)
      && var claimed := Apply(name, m', WorkerClaims(k, true)).row;
         Active(claimed) && WorkerId(claimed) == name(k)
  {
  }

  /** A refresh remembers the status to give back: that of the first of several refreshes, and
      CANCELLED if the task is cancelled. */
  lemma RefreshRemembers(name: Naming, m: Machine)
    requires Effect(name, m, UserRefresh(true)).Some?
    ensures var row := Effect(name, m, UserRefresh(true)).value;
      && row.status.Pending? && row.worker == m.row.worker && row.schedule.value.nextCheckAt == m.clock
      && row.schedule.value.previousStatus == Some(
           if m.row.status.Cancelled? || m.row.schedule.value.previousStatus.None? then m.row.status
           else m.row.schedule.value.previousStatus.value)
  {
  }

  /** A refresh is refused if and only if the row has no schedule or no attempts left, a worker
      is active, the run is another one, or the task is running or complete. */
  lemma RefreshAllowedIff(name: Naming, m: Machine, ok: bool)
    ensures Effect(name, m, UserRefresh(ok)).Some? <==>
      && ok && !Active(m.row) && m.row.schedule.Some? && m.row.schedule.value.attempt < 2147483647
      && !m.row.status.Running? && !m.row.status.Complete?
  {
  }

  /** The scheduler launches exactly the checks that are awaited, due, and of the run in
      control. */
  lemma LaunchedIff(name: Naming, m: Machine, ok: bool, k: nat)
    ensures Apply(name, m, Step.Schedule(ok)).row == m.row
    ensures k in Apply(name, m, Step.Schedule(ok)).launched <==>
      || k in m.launched
      || (&& ok && (m.row.status.Pending? || m.row.status.Waiting?) && !(m.row.worker.Some? && m.row.worker.value.active)
          && m.row.schedule.Some? && m.row.schedule.value == m.row.schedule.value.(attempt := k, suspended := false)
          && m.row.schedule.value.nextCheckAt <= m.clock)
  {
  }

  /** A worker gets the row exactly if its check is awaited, due, of the run in control, and
      of the current attempt; it then holds the row and remembers the status to give back. */
  lemma ClaimedIff(name: Naming, m: Machine, k: nat, ok: bool)
    ensures Effect(name, m, WorkerClaims(k, ok)).Some? <==>
      && ok && AwaitsCheck(m.row) && m.row.schedule.value.attempt == k && m.row.schedule.value.nextCheckAt <= m.clock
    ensures Effect(name, m, WorkerClaims(k, ok)).Some? ==>
      var row, before := Effect(name, m, WorkerClaims(k, ok)).value, m.row.schedule.value.previousStatus;
      && row.status.Pending? && row.schedule == m.row.schedule
      && row.worker == Some(Worker(name(k), true, Some(if before.Some? then before.value else m.row.status)))
  {
  }

  /** Every statement that writes the row stamps it with the clock. */
  lemma WritesAreStamped(name: Naming, m: Machine, step: Step)
    requires Effect(name, m, step).Some?
    ensures Effect(name, m, step).value.updatedAt == m.clock
  {
  }

  /** Every closing records its worker as done and forgets the status it was to give back. */
  lemma ClosingIsRecorded(name: Naming, m: Machine, step: Step)
    requires Closes(name, m, step).Some?
    ensures Apply(name, m, step).row.worker == Some(Worker(Closes(name, m, step).value, false, None))
    ensures Apply(name, m, step).row.schedule.Some? && !step.WorkerFinishes? ==>
      Apply(name, m, step).row.schedule.value.previousStatus.None?
  {
  }

  /** The worker recorded as active is heard: it may beat and wait while the task runs or is
      pending, and report a failed check while it is pending or waiting. */
  lemma ActiveWorkerIsHeard(name: Naming, m: Machine, w: string, stop: bool)
    requires m.row.worker.Some? && m.row.worker.value.active && m.row.worker.value.id == w
    requires m.row.schedule.Some? ==> m.row.schedule.value.deadline.Some?
    ensures Effect(name, m, WorkerBeats(w)).Some? <==> m.row.status.Running? || m.row.status.Pending?
    ensures Effect(name, m, WorkerBeats(w)).Some? ==> Effect(name, m, WorkerBeats(w)).value == m.row.(updatedAt := m.clock)
    ensures Effect(name, m, WorkerWaits(w)).Some? <==> m.row.status.Running? || m.row.status.Pending?
    ensures Effect(name, m, WorkerFails(w, stop)).Some? <==>
      && (m.row.status.Pending? || m.row.status.Waiting?) && m.row.schedule.Some?
      && (m.row.worker.value.previousStatus.Some? ==>
            !m.row.worker.value.previousStatus.value.Running? && !m.row.worker.value.previousStatus.value.Complete?)
  {
  }

  /** Only the worker recorded as active may speak for the row: beats, waits, failures and
      endings of any other change nothing. */
  lemma OthersAreFenced(name: Naming, m: Machine, w: string, stop: bool, status: Status)
    requires !(m.row.worker.Some? && m.row.worker.value.active && m.row.worker.value.id == w)
    ensures forall step | step in {WorkerBeats(w), WorkerWaits(w), WorkerFails(w, stop), WorkerFinishes(w, status)} ::
      Apply(name, m, step) == m
  {
  }

  // ----- heartbeats and endings

  /** The sweep fails a run exactly when it has not been heard of for more than two minutes,
      and releases its worker. */
  lemma SweepIff(name: Naming, m: Machine)
    ensures Effect(name, m, SweepRunning).Some? <==> m.row.status.Running? && m.clock - m.row.updatedAt > 2.0
    ensures Effect(name, m, SweepRunning).Some? ==>
      var row := Effect(name, m, SweepRunning).value;
      row.status.Failed? && !Active(row) && row.schedule == m.row.schedule && WorkerId(row) == WorkerId(m.row)
  {
  }

  /** A failure notice for a run fails it exactly while it is running under that pod, or under
      none that is recorded. */
  lemma RunFailureIff(name: Naming, m: Machine, pod: string)
    ensures Apply(name, m, NoticeRunFailure(pod)).row ==
      if m.row.status.Running? && (m.row.worker.None? || m.row.worker.value.id == pod)
      then m.row.(status := Failed, updatedAt := m.clock) else m.row
  {
  }

  /** A worker that beats is left alone for two minutes. */
  lemma HeartbeatKeepsRun(name: Naming, m: Machine, w: string, elapsed: real)
    requires m.row.status.Running? && Active(m.row) && WorkerId(m.row) == w && 0.0 <= elapsed <= 2.0
    ensures var beaten := Apply(name, m, WorkerBeats(w));
      && beaten.row == m.row.(updatedAt := m.clock)
      && Effect(name, Apply(name, beaten, Tick(elapsed)), SweepRunning).None?
  {
  }

  /** A worker that finishes gives the task its final status; only a failed one keeps its
      schedule, and with it the chance of a refresh. */
  lemma FinishMeaning(name: Naming, m: Machine, w: string, status: Status)
    ensures Effect(name, m, WorkerFinishes(w, status)).Some? <==>
      && (m.row.status.Running? || m.row.status.Pending?) && Active(m.row) && WorkerId(m.row) == w
      && (status.Complete? || status.Failed? || status.Cancelled?)
    ensures Effect(name, m, WorkerFinishes(w, status)).Some? ==>
      var m' := Apply(name, m, WorkerFinishes(w, status));
      && m'.row.status == status && !Active(m'.row)
      && (!status.Failed? ==> Settled(m'.row))
      && (status.Failed? && m.row.schedule.Some? && m.row.schedule.value.attempt < 2147483647 ==>
            Effect(name, m', UserRefresh(true)).Some?)
  {
  }

  /** A cancel takes effect exactly on running and open tasks, and only on their status. */
  lemma CancelMeaning(name: Naming, m: Machine)
    ensures Apply(name, m, UserCancel).row ==
      if m.row.status.Running? || m.row.status.Pending? || m.row.status.Waiting?
      then m.row.(status := Cancelled, updatedAt := m.clock) else m.row
  {
  }
}
