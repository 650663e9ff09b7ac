/** Which reverse-sync pods the watcher removes: it reads the task rows of all listed pods
    in pages and decides pod by pod. */
module EndedTasks {
  import opened Common

  const PAGE_SIZE: nat := 1000

  /** What the watcher knows of a listed pod; taskId falls back to the pod name. */
  datatype Pod = Pod(name: string, reverse: bool, syncId: string, taskId: string, refreshAttempt: Option<string>)

  datatype RowState = RowState(status: string, worker: string, active: bool, attempt: string)

  type States = map<string, RowState>

  function TaskId(pod: Pod): string {
    if pod.taskId == "" then pod.name else pod.taskId
  }

  function Key(pod: Pod): string {
    pod.syncId + ":" + TaskId(pod)
  }

  predicate IsTerminal(status: string) {
    status in {"COMPLETE", "SUCCESS", "FAILED", "CANCELLED", "RESUMED"}
  }

  predicate IsQueued(status: string) {
    status in {"PENDING", "WAITING"}
  }

  /** The verdict on one pod whose task row is known; None for other statuses. */
  function Verdict(pod: Pod, s: RowState): Option<bool> {
    if IsTerminal(s.status) then Some(true)
    else if IsQueued(s.status) then
      Some(|| (s.worker == pod.name && !s.active)
           || (s.worker != pod.name && (s.active || pod.refreshAttempt.None? || pod.refreshAttempt.value != s.attempt)))
    else if s.status == "RUNNING" then Some(s.worker != "" && s.worker != pod.name)
    else None
  }

  /** The pod is found ended, given the rows that could be read. */
  predicate IsEnded(pod: Pod, states: States) {
    pod.reverse && Key(pod) in states && Verdict(pod, states[Key(pod)]) == Some(true)
  }

  /** When a pod is removed, status by status: always once its task has a final status; while
      it runs, if another pod is recorded; while it is queued, if the pod is recorded and no
      longer active, or another one is active, or the pod is not for the current attempt. */
  lemma EndedIff(pod: Pod, states: States)
    requires pod.reverse && Key(pod) in states
    ensures var s := states[Key(pod)];
      IsEnded(pod, states) <==>
        || s.status in ["COMPLETE", "SUCCESS", "FAILED", "CANCELLED", "RESUMED"]
        || (s.status == "RUNNING" && s.worker != "" && s.worker != pod.name)
        || (s.status in ["PENDING", "WAITING"] && s.worker == pod.name && !s.active)
        || (s.status in ["PENDING", "WAITING"] && s.worker != pod.name && (s.active || pod.refreshAttempt != Some(s.attempt)))
  {
  }

  /** Without a row read for it, or as a pod of another kind, a pod is left alone. */
  lemma UnknownIsLeftAlone(pod: Pod, states: States)
    requires !pod.reverse || Key(pod) !in states
    ensures !IsEnded(pod, states)
  {
  }

  // ----- the paged read

  function ReverseIds(pods: seq<Pod>): seq<string> {
    if pods == [] then []
    else ReverseIds(pods[..|pods| - 1])
         + if pods[|pods| - 1].reverse then [TaskId(pods[|pods| - 1])] else []
  }

  function PageCount(ids: seq<string>): nat {
    (|ids| + PAGE_SIZE - 1) / PAGE_SIZE
  }

  /** The ids queried are exactly the task ids of the reverse pods, a pod's own name standing
      in for a missing task id. */
  lemma {:induction false} QueriedIds(pods: seq<Pod>, id: string)
    ensures id in ReverseIds(pods) <==>
      exists pod | pod in pods :: pod.reverse && id == if pod.taskId != "" then pod.taskId else pod.name
  {
    if pods != [] {
      var last := pods[|pods| - 1];
      QueriedIds(pods[..|pods| - 1], id);
      assert pods == pods[..|pods| - 1] + [last];
      assert last in pods;
    }
  }

  /** A row is looked up by sync id and task id. */
  lemma KeyMeaning(pod: Pod)
    ensures Key(pod) == pod.syncId + ":" + if pod.taskId != "" then pod.taskId else pod.name
  {
  }

  /** The rows of the first n pages; a page that failed part-way contributes nothing. */
  function Merge(pages: seq<Option<States>>, n: nat): States
    requires n <= |pages|
  {
    if n == 0 then map[]
    else if pages[n - 1].Some? then Merge(pages, n - 1) + pages[n - 1].value
    else Merge(pages, n - 1)
  }

  /** pages[i] is what the query for the i-th slice of ids returned, or None. */
  method EndedReverseTasks(pods: seq<Pod>, pages: seq<Option<States>>) returns (ended: map<string, bool>)
    requires |pages| == PageCount(ReverseIds(pods))
    requires forall i, j | 0 <= i < j < |pods| :: pods[i].name != pods[j].name
    ensures forall pod | pod in pods ::
      (pod.name in ended && ended[pod.name]) <==> IsEnded(pod, Merge(pages, |pages|))
    ensures forall name | name in ended :: exists pod | pod in pods :: pod.name == name
  {
    ended := map[];
    var states: States := map[];
    var ids: seq<string> := [];
    for i := 0 to |pods|
      invariant ids == ReverseIds(pods[..i])
    {
      assert pods[..i + 1][..i] == pods[..i];
      if pods[i].reverse { ids := ids + [TaskId(pods[i])]; }
    }
    assert pods[..|pods|] == pods;
    var offset, page := 0, 0;
    while offset < |ids|
      invariant 0 <= page <= |pages| && offset == page * PAGE_SIZE
      invariant offset >= |ids| ==> page == |pages|
      invariant states == Merge(pages, page)
    {
      if pages[page].Some? { states := states + pages[page].value; }
      offset, page := offset + PAGE_SIZE, page + 1;
    }
    for i := 0 to |pods|
      invariant forall j | 0 <= j < i ::
        (pods[j].name in ended && ended[pods[j].name]) <==> IsEnded(pods[j], states)
      invariant forall name | name in ended :: exists j | 0 <= j < i :: pods[j].name == name
    {
      var pod := pods[i];
      if pod.reverse && Key(pod) in states {
        var s := states[Key(pod)];
        var verdict := Verdict(pod, s);
        if verdict.Some? { ended := ended[pod.name := verdict.value]; }
      }
    }
  }

  // ----- what the verdicts leave running

  /** Names of refresh pods are derived from sync, task and attempt alone. */
  ghost predicate RefreshPodsNamed(pods: seq<Pod>) {
    forall p, q | p in pods && q in pods && p.refreshAttempt.Some? ::
      Key(p) == Key(q) && p.refreshAttempt == q.refreshAttempt ==> p.name == q.name
  }

  /** The names of the pods of a task that are not removed. */
  ghost function Survivors(pods: seq<Pod>, states: States, key: string): set<string> {
    set pod | pod in pods && pod.reverse && Key(pod) == key && !IsEnded(pod, states) :: pod.name
  }

  /** Of the pods of a queued task at most one survives; while a worker is recorded as
      active it is the only one that can, and it does if it is listed. */
  lemma QueuedTaskKeepsOnePod(pods: seq<Pod>, states: States, key: string)
    requires RefreshPodsNamed(pods)
    requires key in states && IsQueued(states[key].status)
    ensures |Survivors(pods, states, key)| <= 1
    ensures states[key].active ==> Survivors(pods, states, key) <= {states[key].worker}
    ensures forall pod | pod in pods && pod.reverse && Key(pod) == key && states[key].active
              && states[key].worker == pod.name :: Survivors(pods, states, key) == {pod.name}
  {
    var left := Survivors(pods, states, key);
    if left != {} {
      var name :| name in left;
      forall other | other in left ensures other == name {
        var p :| p in pods && p.reverse && Key(p) == key && !IsEnded(p, states) && p.name == name;
        var q :| q in pods && q.reverse && Key(q) == key && !IsEnded(q, states) && q.name == other;
      }
      assert left == {name};
    }
  }

  // ----- failed pages

  /** The answers left when some pages fail as well. */
  ghost predicate FailsMore(pages: seq<Option<States>>, fewer: seq<Option<States>>) {
    |fewer| == |pages| && forall i | 0 <= i < |pages| :: fewer[i] == pages[i] || fewer[i].None?
  }

  predicate Lists(pages: seq<Option<States>>, i: int, key: string) {
    0 <= i < |pages| && pages[i].Some? && key in pages[i].value
  }

  /** Page j is the last complete one with the row. */
  predicate ListsLast(pages: seq<Option<States>>, j: int, key: string) {
    Lists(pages, j, key) && forall k | j < k < |pages| :: !Lists(pages, k, key)
  }

  /** By the row as page i shows it, the pod is to be removed. */
  predicate EndedOn(pod: Pod, pages: seq<Option<States>>, i: int) {
    pod.reverse && Lists(pages, i, Key(pod)) && Verdict(pod, pages[i].value[Key(pod)]) == Some(true)
  }

  /** Of several pages with a row, the last one counts. */
  lemma {:induction false} MergeKeepsLast(pages: seq<Option<States>>, n: nat, key: string) returns (j: nat)
    requires n <= |pages|
    ensures key in Merge(pages, n) ==>
      j < n && Lists(pages, j, key) && (forall k | j < k < n :: !Lists(pages, k, key)) && Merge(pages, n)[key] == pages[j].value[key]
    ensures key !in Merge(pages, n) ==> forall k | 0 <= k < n :: !Lists(pages, k, key)
  {
    j := 0;
    if n > 0 {
      if Lists(pages, n - 1, key) { j := n - 1; } else { j := MergeKeepsLast(pages, n - 1, key); }
    }
  }

  lemma {:induction false} EndedByLast(pod: Pod, pages: seq<Option<States>>)
    ensures IsEnded(pod, Merge(pages, |pages|)) <==> exists j :: ListsLast(pages, j, Key(pod)) && EndedOn(pod, pages, j)
  {
    var j := MergeKeepsLast(pages, |pages|, Key(pod));
    if Key(pod) in Merge(pages, |pages|) { assert ListsLast(pages, j, Key(pod)); }
  }

  /** No page shows the pod to be removed while the last page with its row does not. */
  ghost predicate NoLaterReprieve(pod: Pod, pages: seq<Option<States>>) {
    forall i, j | EndedOn(pod, pages, i) && ListsLast(pages, j, Key(pod)) :: EndedOn(pod, pages, j)
  }

  /** Failed pages can only make the set of removed pods smaller if and only if no page shows
      the pod's row ended while the last page that lists it does not. */
  lemma {:induction false} FailedPagesRemoveLessIff(pages: seq<Option<States>>, pod: Pod)
    ensures (forall fewer | FailsMore(pages, fewer) ::
               IsEnded(pod, Merge(fewer, |fewer|)) ==> IsEnded(pod, Merge(pages, |pages|)))
       <==> NoLaterReprieve(pod, pages)
  {
    if NoLaterReprieve(pod, pages) {
      forall fewer | FailsMore(pages, fewer) && IsEnded(pod, Merge(fewer, |fewer|))
        ensures IsEnded(pod, Merge(pages, |pages|))
      {
        EndedByLast(pod, fewer);
        var i :| ListsLast(fewer, i, Key(pod)) && EndedOn(pod, fewer, i);
        assert EndedOn(pod, pages, i);
        var j := MergeKeepsLast(pages, |pages|, Key(pod));
        assert ListsLast(pages, j, Key(pod));
        EndedByLast(pod, pages);
      }
    } else {
      var i, j :| EndedOn(pod, pages, i) && ListsLast(pages, j, Key(pod)) && !EndedOn(pod, pages, j);
      var fewer := ReprievedTooLate(pod, pages, i, j);
      assert !(IsEnded(pod, Merge(fewer, |fewer|)) ==> IsEnded(pod, Merge(pages, |pages|)));
    }
  }

  lemma ReprievedTooLate(pod: Pod, pages: seq<Option<States>>, i: nat, j: nat) returns (fewer: seq<Option<States>>)
    requires EndedOn(pod, pages, i) && ListsLast(pages, j, Key(pod)) && !EndedOn(pod, pages, j)
    ensures FailsMore(pages, fewer)
    ensures IsEnded(pod, Merge(fewer, |fewer|)) && !IsEnded(pod, Merge(pages, |pages|))
  {
    fewer := seq(|pages|, k => if k == i then pages[i] else None);
    assert ListsLast(fewer, i, Key(pod)) && EndedOn(pod, fewer, i);
    EndedByLast(pod, fewer);
    EndedByLast(pod, pages);
  }

  // ----- pages as answers of the database

  /** Task rows by sync and task id. */
  type Table = map<(string, string), RowState>

  function RowKey(row: (string, string)): string { row.0 + ":" + row.1 }

  function Slice(ids: seq<string>, i: nat): seq<string>
    requires i < PageCount(ids)
  {
    ids[i * PAGE_SIZE..if (i + 1) * PAGE_SIZE < |ids| then (i + 1) * PAGE_SIZE else |ids|]
  }

  /** The answer holds the rows of the queried task ids, by key, and no others. */
  ghost predicate IsAnswer(page: States, ids: seq<string>, table: Table) {
    && (forall row | row in table && row.1 in ids :: RowKey(row) in page)
    && (forall key | key in page :: exists row | row in table :: row.1 in ids && RowKey(row) == key && page[key] == table[row])
  }

  /** The pages of one pass over the pods, the table possibly changing between the queries. */
  ghost predicate IsRead(pods: seq<Pod>, tables: seq<Table>, pages: seq<Option<States>>) {
    && |tables| == |pages| == PageCount(ReverseIds(pods))
    && forall i | 0 <= i < |pages| ::
         pages[i].Some? ==> IsAnswer(pages[i].value, Slice(ReverseIds(pods), i), tables[i])
  }
}
