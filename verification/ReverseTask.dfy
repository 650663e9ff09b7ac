/** One reverse-sync task row and everything that updates it: the controller's guarded SQL
    statements and the worker's own. Times are minutes on the database clock. */
module ReverseTask {
  import opened Common

  datatype Status = Pending | Waiting | Running | Failed | Cancelled | Complete

  const MAX_ATTEMPT: nat := 2147483647
  const STALE_AFTER: real := 2.0
  const RETRY_WINDOW: real := 1440.0

  /** metrics.reverseRecovery */
  datatype Schedule = Schedule(
    attempt: nat,
    suspended: bool,
    nextCheckAt: real,
    deadline: Option<real>,
    previousStatus: Option<Status>)

  /** metrics.reverseWorker */
  datatype Worker = Worker(id: string, active: bool, previousStatus: Option<Status>)

  datatype Row = Row(status: Status, schedule: Option<Schedule>, worker: Option<Worker>, updatedAt: real)

  /** The deterministic pod name of a refresh attempt of this task. */
  type Naming = nat -> string

  predicate Open(status: Status) { status.Pending? || status.Waiting? }

  predicate Restorable(status: Status) { Open(status) || status.Failed? || status.Cancelled? }

  predicate Active(row: Row) { row.worker.Some? && row.worker.value.active }

  function WorkerId(row: Row): string {
    if row.worker.Some? then row.worker.value.id else ""
  }

  function Coalesce<T>(a: Option<T>, b: T): T {
    if a.Some? then a.value else b
  }

  // ----- backoff

  function Pow13(n: nat): real {
    if n == 0 then 1.0 else 1.3 * Pow13(n - 1)
  }

  function Min(a: real, b: real): real {
    if a <= b then a else b
  }

  /** Minutes until the next check: 30, 39, 50.7, then an hour. */
  function Delay(attempt: nat): real {
    Min(60.0, 30.0 * Pow13(attempt))
  }

  lemma {:induction false} DelayBounds(attempt: nat)
    ensures 30.0 <= Delay(attempt) <= 60.0
    ensures attempt >= 1 ==> Delay(attempt) >= 39.0
    ensures Pow13(attempt) >= 1.0 && (attempt >= 1 ==> Pow13(attempt) >= 1.3)
  {
    if attempt > 0 { DelayBounds(attempt - 1); }
  }

  /** Half an hour, 39 minutes, 50.7 minutes, and an hour from then on. */
  lemma {:induction false} DelayValues(attempt: nat)
    ensures Delay(attempt) == if attempt == 0 then 30.0 else if attempt == 1 then 39.0 else if attempt == 2 then 50.7 else 60.0
    ensures attempt >= 3 ==> Pow13(attempt) >= 2.0
  {
    if attempt > 3 {
      DelayValues(attempt - 1);
    } else {
      assert Pow13(0) == 1.0 && Pow13(1) == 1.3 && Pow13(2) == 1.69 && Pow13(3) == 2.197;
    }
  }

  // ----- controller statements; None means that no row matched

  /** The user asks for a status check. */
  function Refresh(row: Row, controlMatches: bool, now: real): Option<Row> {
    if Restorable(row.status) && !Active(row) && controlMatches && row.schedule.Some?
       && row.schedule.value.attempt < MAX_ATTEMPT
    then
      var s := row.schedule.value;
      Some(row.(status := Pending, updatedAt := now,
                schedule := Some(Schedule(s.attempt + 1, false, now, Some(now + RETRY_WINDOW),
                  Some(if row.status.Cancelled? then Cancelled else Coalesce(s.previousStatus, row.status))))))
    else None
  }

  function Cancel(row: Row, now: real): Option<Row> {
    if row.status.Running? || Open(row.status) then Some(row.(status := Cancelled, updatedAt := now)) else None
  }

  /** A run whose heartbeat stopped is failed and its worker released. */
  function CloseStale(row: Row, now: real): Option<Row> {
    if row.status.Running? && row.updatedAt < now - STALE_AFTER then
      Some(row.(status := Failed, updatedAt := now,
                worker := if row.worker.Some? then Some(row.worker.value.(active := false)) else None))
    else None
  }

  /** A failure notice about a worker that was not started for recovery. */
  function FailRun(row: Row, pod: string, now: real): Option<Row> {
    if row.status.Running? && (row.worker.None? || row.worker.value.id == pod) then
      Some(row.(status := Failed, updatedAt := now))
    else None
  }

  /** The row the scheduler picks up. */
  predicate Due(row: Row, controlMatches: bool, now: real) {
    && Open(row.status) && controlMatches && !Active(row)
    && row.schedule.Some? && !row.schedule.value.suspended && row.schedule.value.nextCheckAt <= now
  }

  /** The status a check that fails gives back. */
  function StatusBefore(row: Row): Status {
    if Active(row) && row.worker.value.previousStatus.Some? then row.worker.value.previousStatus.value
    else if row.schedule.Some? then Coalesce(row.schedule.value.previousStatus, row.status)
    else row.status
  }

  /** Whether a failure of workerId concerns the worker this row waits for. */
  predicate Concerns(name: Naming, row: Row, workerId: string, allowActive: bool)
    requires row.schedule.Some?
  {
    if Active(row) then allowActive && WorkerId(row) == workerId
    else WorkerId(row) != workerId && name(row.schedule.value.attempt) == workerId
  }

  function AfterFailure(s: Schedule, now: real): Schedule
  {
    var attempt := if s.attempt >= MAX_ATTEMPT then s.attempt else s.attempt + 1;
    var next := now + Delay(attempt);
    var over := s.deadline.Some? && now >= s.deadline.value;
    Schedule(attempt,
             s.suspended || s.attempt >= MAX_ATTEMPT || over,
             if s.deadline.Some? && !over && next > s.deadline.value then s.deadline.value else next,
             s.deadline, None)
  }

  /** Records that a status check failed without touching the delivery it checks. */
  function RecordFailure(name: Naming, row: Row, workerId: string, allowActive: bool,
                         staleBefore: Option<real>, now: real): Option<Row>
  {
    if Open(row.status) && (staleBefore.Some? ==> row.updatedAt < staleBefore.value)
       && row.schedule.Some? && Concerns(name, row, workerId, allowActive) && Restorable(StatusBefore(row))
    then
      Some(Row(StatusBefore(row), Some(AfterFailure(row.schedule.value, now)),
               Some(Worker(workerId, false, None)), now))
    else None
  }

  // ----- worker statements

  /** A recovery pod takes the row over, once its check is due. */
  function Claim(row: Row, workerId: string, attempt: nat, controlMatches: bool, now: real): Option<Row> {
    if Due(row, controlMatches, now) && row.schedule.value.attempt == attempt then
      Some(row.(status := Pending, updatedAt := now,
                worker := Some(Worker(workerId, true,
                                      Some(Coalesce(row.schedule.value.previousStatus, row.status))))))
    else None
  }

  predicate Owns(row: Row, workerId: string) {
    Active(row) && row.worker.value.id == workerId
  }

  function Heartbeat(row: Row, workerId: string, now: real): Option<Row> {
    if (row.status.Running? || row.status.Pending?) && Owns(row, workerId) then Some(row.(updatedAt := now)) else None
  }

  /** The next check of an unfinished delivery; None once its window is over. */
  function NextCheck(previous: Option<Schedule>, now: real): Option<Schedule>
    requires previous.Some? ==> previous.value.deadline.Some?
  {
    if previous.None? then Some(Schedule(0, false, now + Delay(0), Some(now + RETRY_WINDOW), None))
    else
      var s := previous.value;
      if now >= s.deadline.value || s.attempt >= MAX_ATTEMPT then None
      else Some(Schedule(s.attempt + 1, false, Min(now + Delay(s.attempt + 1), s.deadline.value), s.deadline, None))
  }

  /** The schedule as the worker's parser reads it back: it knows no other fields. */
  function Parsed(s: Schedule): Schedule {
    s.(suspended := false, previousStatus := None)
  }

  predicate Readable(row: Row) {
    row.schedule.Some? ==> row.schedule.value.deadline.Some?
  }

  /** The worker found the provider still busy. */
  function Wait(row: Row, workerId: string, now: real): Option<Row> {
    if (row.status.Running? || row.status.Pending?) && Owns(row, workerId) && Readable(row) then
      var next := NextCheck(row.schedule, now);
      Some(Row(if next.Some? then Pending else Failed,
               if next.Some? then next else Some(Parsed(row.schedule.value)),
               Some(Worker(workerId, false, None)), now))
    else None
  }

  /** The worker's check itself failed. */
  function RefreshFailed(row: Row, workerId: string, stop: bool, now: real): Option<Row> {
    if Open(row.status) && Owns(row, workerId) && row.schedule.Some? && Readable(row)
       && Restorable(Coalesce(row.worker.value.previousStatus, row.status))
    then
      var next := NextCheck(row.schedule, now);
      var s := if next.Some? then next.value else Parsed(row.schedule.value);
      Some(Row(Coalesce(row.worker.value.previousStatus, row.status),
               Some(s.(suspended := stop || next.None?)),
               Some(Worker(workerId, false, None)), now))
    else None
  }

  /** The worker finished the delivery one way or the other. */
  function Finish(row: Row, workerId: string, status: Status, now: real): Option<Row> {
    if (row.status.Running? || row.status.Pending?) && Owns(row, workerId)
       && (status.Complete? || status.Failed? || status.Cancelled?)
    then
      Some(Row(status, if status.Failed? then row.schedule else None, Some(Worker(workerId, false, None)), now))
    else None
  }

  /** What an UPDATE leaves of the row, which may be missing. */
  function Updated(row: Option<Row>, update: Row -> Option<Row>): Option<Row> {
    if row.Some? then Some(Coalesce(update(row.value), row.value)) else None
  }

  /** The row written for a run that failed before it had one. */
  function FailedRun(now: real): Row { Row(Failed, None, None, now) }

  // ----- the statements as the controller runs them

  class SourceTask {
    const name: Naming
    var row: Option<Row>

    constructor (name: Naming, row: Option<Row>)
      ensures this.name == name && this.row == row
    {
      this.name, this.row := name, row;
    }

    method RefreshReverseTask(controlMatches: bool, now: real) returns (attempt: Option<nat>)
      modifies this
      ensures row == Updated(old(row), r => Refresh(r, controlMatches, now))
      ensures attempt.Some? <==> old(row).Some? && Refresh(old(row).value, controlMatches, now).Some?
      ensures attempt.Some? ==> attempt.value == row.value.schedule.value.attempt
    {
      attempt := None;
      if row.None? { return; }
      var r := row.value;
      if r.schedule.None? || !Restorable(r.status) || Active(r) || !controlMatches { return; }
      var s := r.schedule.value;
      if s.attempt >= MAX_ATTEMPT { return; }
      var before := r.status;
      if !r.status.Cancelled? && s.previousStatus.Some? { before := s.previousStatus.value; }
      s := s.(previousStatus := Some(before), suspended := false, attempt := s.attempt + 1,
              nextCheckAt := now, deadline := Some(now + RETRY_WINDOW));
      row := Some(r.(status := Pending, updatedAt := now, schedule := Some(s)));
      attempt := Some(s.attempt);
    }

    method ReverseCancel(now: real)
      modifies this
      ensures row == Updated(old(row), r => Cancel(r, now))
    {
      if row.Some? && (row.value.status.Running? || row.value.status.Waiting? || row.value.status.Pending?) {
        row := Some(row.value.(status := Cancelled, updatedAt := now));
      }
    }

    method CloseStaleReverseTask(now: real)
      modifies this
      ensures row == Updated(old(row), r => CloseStale(r, now))
    {
      if row.None? { return; }
      var r := row.value;
      if r.status.Running? && r.updatedAt < now - STALE_AFTER {
        r := r.(status := Failed, updatedAt := now);
        if r.worker.Some? { r := r.(worker := Some(r.worker.value.(active := false))); }
        row := Some(r);
      }
    }

    /** One transaction: read the row, edit schedule and worker, write both back. */
    method RecordReverseRefreshFailure(workerId: string, allowActive: bool, staleBefore: Option<real>, now: real)
      modifies this
      ensures row == Updated(old(row), r => RecordFailure(name, r, workerId, allowActive, staleBefore, now))
    {
      if row.None? { return; }
      var r := row.value;
      if !Open(r.status) { return; }
      if staleBefore.Some? && !(r.updatedAt < staleBefore.value) { return; }
      if r.schedule.None? { return; }
      var schedule := r.schedule.value;
      var active := Active(r);
      var previousWorker := WorkerId(r);
      var expected := name(schedule.attempt);
      if active {
        if !allowActive || previousWorker != workerId { return; }
      } else if previousWorker == workerId || expected != workerId {
        return;
      }
      var status := r.status;
      if schedule.previousStatus.Some? { status := schedule.previousStatus.value; }
      if active && r.worker.value.previousStatus.Some? { status := r.worker.value.previousStatus.value; }
      if !Restorable(status) { return; }
      var attempt := schedule.attempt;
      if attempt >= MAX_ATTEMPT {
        schedule := schedule.(suspended := true);
      } else {
        attempt := attempt + 1;
      }
      var next := now + Delay(attempt);
      if schedule.deadline.Some? {
        var deadline := schedule.deadline.value;
        if !(now < deadline) {
          schedule := schedule.(suspended := true);
        } else if next > deadline {
          next := deadline;
        }
      }
      schedule := schedule.(attempt := attempt, nextCheckAt := next, previousStatus := None);
      row := Some(Row(status, Some(schedule), Some(Worker(workerId, false, None)), now));
    }

    /** A recovery worker is charged as a failed check; any other fails its run, which is
        inserted if it has no row yet. */
    method FailReverseWorker(pod: string, recovery: bool, now: real)
      modifies this
      ensures recovery ==> row == Updated(old(row), r => RecordFailure(name, r, pod, true, None, now))
      ensures !recovery ==> row == if old(row).None? then Some(FailedRun(now)) else Updated(old(row), r => FailRun(r, pod, now))
    {
      if recovery {
        RecordReverseRefreshFailure(pod, true, None, now);
      } else if row.None? {
        row := Some(Row(Failed, None, None, now));
      } else if row.value.status.Running? && (row.value.worker.None? || row.value.worker.value.id == pod) {
        row := Some(row.value.(status := Failed, updatedAt := now));
      }
    }
  }
}
