/** The watcher against the tasks it watches: what its queries show are successive states of
    task rows, and a pod found ended once is ended for good. */
module EndedRuns {

  import opened Common
  import opened EndedTasks
  import opened ReverseTask
  import opened ReverseRuns

  // ----- a row as the watcher's query shows it

  function StatusText(status: Status): string {
    match status
    case Pending => "PENDING"
    case Waiting => "WAITING"
    case Running => "RUNNING"
    case Failed => "FAILED"
    case Cancelled => "CANCELLED"
    case Complete => "COMPLETE"
  }

  /** How an attempt number is written, in rows and in annotations. */
  type Numerals = nat -> string

  ghost predicate DistinctNumerals(text: Numerals) {
    forall j: nat, k: nat :: text(j) == text(k) ==> j == k
  }

  function Shown(text: Numerals, row: Row): RowState {
    RowState(StatusText(row.status), WorkerId(row), Active(row),
             if row.schedule.Some? then text(row.schedule.value.attempt) else "0")
  }

  // ----- the pods of a task

  ghost predicate IsFirst(name: Naming, first: string) { forall k: nat :: name(k) != first }

  /** A pod of the task: its first worker, or a refresh pod launched for attempt k, which
      carries that attempt. */
  ghost predicate OfTask(name: Naming, text: Numerals, first: string, m: Machine, pod: Pod) {
    || (pod.name == first && pod.refreshAttempt.None?)
    || exists k: nat :: k in m.launched && pod.name == name(k) && pod.refreshAttempt == Some(text(k))
  }

  /** Beyond the invariant of runs: only the first worker is ever recorded as running, and a
      refresh worker recorded as inactive is done for good. */
  ghost predicate WatchInv(name: Naming, m: Machine, first: string) {
    && (m.row.status.Running? ==> WorkerId(m.row) == first)
    && (forall k: nat | !Active(m.row) && WorkerId(m.row) == name(k) :: Over(name, m.row, k))
  }

  lemma StepKeepsWatch(name: Naming, m: Machine, step: Step, closed: set<string>, first: string)
    requires DistinctNames(name) && IsFirst(name, first) && Inv(name, m, closed) && Enabled(name, m, step)
    requires WatchInv(name, m, first)
    ensures WatchInv(name, Apply(name, m, step), first)
  {
  }

  // ----- ended for good

  /** The refresh pod of attempt k is ended, said of the row itself. */
  predicate RefreshEnded(name: Naming, row: Row, k: nat) {
    || row.status.Failed? || row.status.Cancelled? || row.status.Complete?
    || (&& Open(row.status) && row.schedule.Some?
        && if WorkerId(row) == name(k) then !Active(row) else Active(row) || k != row.schedule.value.attempt)
  }

  lemma RefreshEndedStep(name: Naming, m: Machine, step: Step, closed: set<string>, first: string, k: nat)
    requires DistinctNames(name) && Inv(name, m, closed) && WatchInv(name, m, first)
    requires k in m.launched && RefreshEnded(name, m.row, k)
    ensures RefreshEnded(name, Apply(name, m, step).row, k)
  {
  }

  lemma RefreshVerdict(name: Naming, text: Numerals, m: Machine, closed: set<string>, pod: Pod, k: nat)
    requires DistinctNumerals(text) && Inv(name, m, closed)
    requires k in m.launched && pod.name == name(k) && pod.refreshAttempt == Some(text(k))
    ensures Verdict(pod, Shown(text, m.row)) == Some(true) <==> RefreshEnded(name, m.row, k)
  {
  }

  lemma FirstVerdict(name: Naming, text: Numerals, m: Machine, closed: set<string>, first: string, pod: Pod)
    requires IsFirst(name, first) && Inv(name, m, closed) && WatchInv(name, m, first)
    requires pod.name == first && pod.refreshAttempt.None?
    ensures Verdict(pod, Shown(text, m.row)) == Some(true) <==> !m.row.status.Running?
  {
  }

  lemma RunsOnlyAtFirst(name: Naming, m: Machine, step: Step)
    requires !m.row.status.Running?
    ensures !Apply(name, m, step).row.status.Running?
  {
  }

  /** No step of the controller or of a worker takes an ended pod back. */
  lemma {:induction false} EndedStep(name: Naming, text: Numerals, m: Machine, step: Step, closed: set<string>, first: string, pod: Pod)
    requires DistinctNames(name) && DistinctNumerals(text) && IsFirst(name, first)
    requires Inv(name, m, closed) && WatchInv(name, m, first) && Enabled(name, m, step) && OfTask(name, text, first, m, pod)
    requires Verdict(pod, Shown(text, m.row)) == Some(true)
    ensures Verdict(pod, Shown(text, Apply(name, m, step).row)) == Some(true)
  {
    hide Inv, WatchInv, Verdict, Effect, RefreshEnded;
    var m' := Apply(name, m, step);
    StepKeepsInv(name, m, step, closed);
    StepKeepsWatch(name, m, step, closed, first);
    var closed' := ClosedAfter(name, m, step, closed);
    if pod.name == first && pod.refreshAttempt.None? {
      FirstVerdict(name, text, m, closed, first, pod);
      RunsOnlyAtFirst(name, m, step);
      FirstVerdict(name, text, m', closed', first, pod);
    } else {
      var k: nat :| k in m.launched && pod.name == name(k) && pod.refreshAttempt == Some(text(k));
      RefreshVerdict(name, text, m, closed, pod, k);
      RefreshEndedStep(name, m, step, closed, first, k);
      RefreshVerdict(name, text, m', closed', pod, k);
    }
  }

  lemma OfTaskStays(name: Naming, text: Numerals, first: string, m: Machine, step: Step, pod: Pod)
    requires OfTask(name, text, first, m, pod)
    ensures OfTask(name, text, first, Apply(name, m, step), pod)
  {
    if !(pod.name == first && pod.refreshAttempt.None?) {
      var k: nat :| k in m.launched && pod.name == name(k) && pod.refreshAttempt == Some(text(k));
      assert k in Apply(name, m, step).launched;
    }
  }

  /** Some run from the creation of the task leads to this state, or the row was written for
      a run that failed before it had one. */
  ghost predicate Begins(name: Naming, first: string, m: Machine) {
    || (Created(name, m) && m.row.worker.value.id == first)
    || (m.launched == {} && m.row == FailedRun(m.row.updatedAt))
  }

  ghost predicate Reached(name: Naming, first: string, m: Machine) {
    exists m0, run :: Begins(name, first, m0) && IsRun(name, m0, run) && After(name, m0, run) == m
  }

  /** The invariants, in every state a run reaches. */
  ghost predicate Sound(name: Naming, m: Machine, first: string) {
    WatchInv(name, m, first) && exists closed :: Inv(name, m, closed)
  }

  lemma {:induction false} RunIsSound(name: Naming, m: Machine, run: seq<Step>, first: string)
    requires DistinctNames(name) && IsFirst(name, first) && Sound(name, m, first) && IsRun(name, m, run)
    ensures Sound(name, After(name, m, run), first)
    decreases |run|
  {
    if run != [] {
      var closed :| Inv(name, m, closed);
      SoundStep(name, m, run[0], closed, first);
      RunIsSound(name, Apply(name, m, run[0]), run[1..], first);
    }
  }

  lemma SoundStep(name: Naming, m: Machine, step: Step, closed: set<string>, first: string)
    requires DistinctNames(name) && IsFirst(name, first) && WatchInv(name, m, first) && Inv(name, m, closed) && Enabled(name, m, step)
    ensures Sound(name, Apply(name, m, step), first)
  {
    hide Inv, WatchInv, Effect;
    StepKeepsInv(name, m, step, closed);
    StepKeepsWatch(name, m, step, closed, first);
  }

  lemma ReachedIsSound(name: Naming, first: string, m: Machine)
    requires DistinctNames(name) && IsFirst(name, first) && Reached(name, first, m)
    ensures Sound(name, m, first)
  {
    var m0, run :| Begins(name, first, m0) && IsRun(name, m0, run) && After(name, m0, run) == m;
    assert Inv(name, m0, {});
    RunIsSound(name, m0, run, first);
  }

  /** Over every run: a pod of the task found ended is found ended ever after. */
  lemma {:induction false} EndedForGood(name: Naming, text: Numerals, m: Machine, run: seq<Step>, first: string, pod: Pod)
    requires DistinctNames(name) && DistinctNumerals(text) && IsFirst(name, first) && Sound(name, m, first)
    requires IsRun(name, m, run) && OfTask(name, text, first, m, pod)
    requires Verdict(pod, Shown(text, m.row)) == Some(true)
    ensures Verdict(pod, Shown(text, After(name, m, run).row)) == Some(true)
    ensures OfTask(name, text, first, After(name, m, run), pod)
    decreases |run|
  {
    hide Inv, WatchInv, Verdict, Shown, OfTask, Effect;
    if run != [] {
      var closed :| Inv(name, m, closed);
      EndedStep(name, text, m, run[0], closed, first, pod);
      OfTaskStays(name, text, first, m, run[0], pod);
      SoundStep(name, m, run[0], closed, first);
      EndedForGood(name, text, Apply(name, m, run[0]), run[1..], first, pod);
    }
  }

  // ----- pages over time

  /** The machine of one task at the time of each query, from the query that first finds its
      row, and the steps taken from one query to the next. */
  datatype History = History(from: nat, states: seq<Machine>, between: seq<seq<Step>>)

  ghost predicate IsHistory(name: Naming, text: Numerals, first: string, id: (string, string), tables: seq<Table>, h: History) {
    && |h.states| == |tables| && |h.between| == |tables|
    && (forall i | 0 <= i < |tables| ::
          if i < h.from then id !in tables[i] else id in tables[i] && tables[i][id] == Shown(text, h.states[i].row))
    && (h.from < |tables| ==> Reached(name, first, h.states[h.from]))
    && (forall i | h.from <= i < |tables| - 1 ::
          IsRun(name, h.states[i], h.between[i]) && h.states[i + 1] == After(name, h.states[i], h.between[i]))
  }

  /** The tables show one life of the task the pod works on, and the pod was there before. */
  ghost predicate Follows(text: Numerals, tables: seq<Table>, pod: Pod, name: Naming, first: string, h: History) {
    && DistinctNames(name) && IsFirst(name, first)
    && IsHistory(name, text, first, (pod.syncId, TaskId(pod)), tables, h)
    && (h.from < |tables| ==> OfTask(name, text, first, h.states[h.from], pod))
  }

  ghost predicate Lived(text: Numerals, tables: seq<Table>, pod: Pod) {
    exists name, first, h :: Follows(text, tables, pod, name, first, h)
  }

  /** Sync ids carry no colon, so a key names one row. */
  predicate ColonFree(tables: seq<Table>, pod: Pod) {
    ':' !in pod.syncId && forall i, row | 0 <= i < |tables| && row in tables[i] :: ':' !in row.0
  }

  /** The colon of a key is its first. */
  lemma FirstColon(row: (string, string))
    requires ':' !in row.0
    ensures var key := RowKey(row);
      |row.0| < |key| && key[|row.0|] == ':' && (forall i | 0 <= i < |row.0| :: key[i] != ':')
      && row.0 == key[..|row.0|] && row.1 == key[|row.0| + 1..]
  {
    var key := RowKey(row);
    assert forall i | 0 <= i < |row.0| :: key[i] == row.0[i] && row.0[i] in row.0;
  }

  lemma KeyNamesRow(row: (string, string), other: (string, string))
    requires RowKey(row) == RowKey(other) && ':' !in row.0 && ':' !in other.0
    ensures row == other
  {
    FirstColon(row);
    FirstColon(other);
    assert |row.0| == |other.0|;
  }

  /** What a page says of the pod's row is what the table held. */
  lemma PageShowsRow(pods: seq<Pod>, tables: seq<Table>, pages: seq<Option<States>>, pod: Pod, i: nat)
    requires IsRead(pods, tables, pages) && ColonFree(tables, pod) && Lists(pages, i, Key(pod))
    ensures var id := (pod.syncId, TaskId(pod));
      id in tables[i] && pages[i].value[Key(pod)] == tables[i][id]
  {
    assert IsAnswer(pages[i].value, Slice(ReverseIds(pods), i), tables[i]);
    var row :| row in tables[i] && RowKey(row) == Key(pod) && pages[i].value[Key(pod)] == tables[i][row];
    assert Key(pod) == RowKey((pod.syncId, TaskId(pod)));
    KeyNamesRow(row, (pod.syncId, TaskId(pod)));
  }

  lemma {:induction false} EndedLater(text: Numerals, tables: seq<Table>, pod: Pod, name: Naming, first: string, h: History, i: nat, j: nat)
    requires DistinctNumerals(text) && Follows(text, tables, pod, name, first, h)
    requires h.from <= i <= j < |tables|
    requires Verdict(pod, Shown(text, h.states[i].row)) == Some(true)
    ensures Verdict(pod, Shown(text, h.states[j].row)) == Some(true)
    decreases j
  {
    hide Verdict, Shown, OfTask, Inv, WatchInv;
    if i < j {
      EndedLater(text, tables, pod, name, first, h, i, j - 1);
      StateIsSound(text, tables, pod, name, first, h, j - 1);
      EndedForGood(name, text, h.states[j - 1], h.between[j - 1], first, pod);
    }
  }

  lemma {:induction false} StateIsSound(text: Numerals, tables: seq<Table>, pod: Pod, name: Naming, first: string, h: History, i: nat)
    requires Follows(text, tables, pod, name, first, h) && h.from <= i < |tables|
    ensures Sound(name, h.states[i], first) && OfTask(name, text, first, h.states[i], pod)
    decreases i
  {
    hide Shown, Inv, WatchInv;
    if i == h.from {
      ReachedIsSound(name, first, h.states[i]);
    } else {
      StateIsSound(text, tables, pod, name, first, h, i - 1);
      RunIsSound(name, h.states[i - 1], h.between[i - 1], first);
      OfTaskKept(name, text, first, h.states[i - 1], h.between[i - 1], pod);
    }
  }

  lemma {:induction false} OfTaskKept(name: Naming, text: Numerals, first: string, m: Machine, run: seq<Step>, pod: Pod)
    requires OfTask(name, text, first, m, pod)
    ensures OfTask(name, text, first, After(name, m, run), pod)
    decreases |run|
  {
    hide OfTask;
    if run != [] {
      OfTaskStays(name, text, first, m, run[0], pod);
      OfTaskKept(name, text, first, Apply(name, m, run[0]), run[1..], pod);
    }
  }

  lemma {:induction false} LivedHasNoReprieve(pods: seq<Pod>, text: Numerals, tables: seq<Table>, pages: seq<Option<States>>, pod: Pod)
    requires DistinctNumerals(text) && IsRead(pods, tables, pages) && ColonFree(tables, pod) && Lived(text, tables, pod)
    ensures NoLaterReprieve(pod, pages)
  {
    hide Verdict, Shown, OfTask, IsRead, ColonFree;
    var name, first, h :| Follows(text, tables, pod, name, first, h);
    forall i, j | EndedOn(pod, pages, i) && ListsLast(pages, j, Key(pod)) ensures EndedOn(pod, pages, j) {
      assert i <= j;
      SameLength(pods, tables, pages);
      PageShowsRow(pods, tables, pages, pod, i);
      PageShowsRow(pods, tables, pages, pod, j);
      EndedLater(text, tables, pod, name, first, h, i, j);
    }
  }

  lemma SameLength(pods: seq<Pod>, tables: seq<Table>, pages: seq<Option<States>>)
    requires IsRead(pods, tables, pages)
    ensures |tables| == |pages|
  {
  }

  /** A failed query page can only make the set of removed pods smaller, whatever the
      controllers and workers do to the rows between the queries and however the pods of a
      task spread over the pages. */
  lemma {:induction false} FailedPagesRemoveLess(pods: seq<Pod>, text: Numerals, tables: seq<Table>, pages: seq<Option<States>>,
                                                 fewer: seq<Option<States>>)
    requires DistinctNumerals(text) && IsRead(pods, tables, pages) && FailsMore(pages, fewer)
    requires forall pod | pod in pods && pod.reverse :: ColonFree(tables, pod) && Lived(text, tables, pod)
    ensures forall pod | pod in pods :: IsEnded(pod, Merge(fewer, |fewer|)) ==> IsEnded(pod, Merge(pages, |pages|))
  {
    hide IsRead, Lived, ColonFree, NoLaterReprieve, Merge;
    forall pod | pod in pods && IsEnded(pod, Merge(fewer, |fewer|)) ensures IsEnded(pod, Merge(pages, |pages|)) {
      LivedHasNoReprieve(pods, text, tables, pages, pod);
      FailedPagesRemoveLessIff(pages, pod);
    }
  }
}
