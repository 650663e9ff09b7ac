/** Delayed shutdown over every run of reconciles and rollouts. */
module OperatorRuns {
  import opened Common
  import opened Operator

  /** Between reconciles the cluster finishes or loses rollouts on its own. */
  datatype Event =
    | Reconcile(input: Input)
    | Rollout(id: string, rolledOut: bool, completedAt: Option<int>)

  function ReconcileCluster(c: Cluster, input: Input): (c': Cluster)
    ensures forall id :: Entry(c', id) == EntryAfter(c, input, id)
  {
    map id | id in c.Keys + input.desired.Keys && EntryAfter(c, input, id).Some? :: EntryAfter(c, input, id).value
  }

  function Apply(c: Cluster, e: Event): Cluster {
    match e
    case Reconcile(input) => ReconcileCluster(c, input)
    case Rollout(id, rolledOut, at) =>
      if id in c then c[id := c[id].(rolledOut := rolledOut, rolloutCompletedAt := at)] else c
  }

  /** The cluster after the first n events of a run. */
  function After(c: Cluster, run: seq<Event>, n: nat): Cluster
    requires n <= |run|
  {
    if n == 0 then c else Apply(After(c, run, n - 1), run[n - 1])
  }

  /** The event marks deployment d for shutdown. */
  predicate Marks(c: Cluster, e: Event, d: string) {
    && e.Reconcile? && d in c && c[d].shutdownAt.None?
    && d !in e.input.desired && d !in e.input.failing
    && AllWorkspacesHandled(d, c, e.input.known)
  }

  predicate Deletes(c: Cluster, e: Event, d: string) {
    d in c && d !in Apply(c, e)
  }

  /** The event found the deployment unwanted, or could not write it. */
  predicate LeavesUnwanted(e: Event, d: string) {
    e.Reconcile? ==> d !in e.input.desired || d in e.input.failing
  }

  function ShutdownTime(e: Event, d: string): int
    requires e.Reconcile?
  {
    WholeSeconds(e.input.markAt(d) + SHUTDOWN_DELAY)
  }

  /** An event that leaves a mark set it, or found it on an unwanted deployment. */
  lemma MarkStep(c: Cluster, e: Event, d: string)
    requires d in Apply(c, e) && Apply(c, e)[d].shutdownAt.Some?
    ensures d in c
    ensures if c[d].shutdownAt.Some? then Apply(c, e)[d].shutdownAt == c[d].shutdownAt && LeavesUnwanted(e, d)
            else Marks(c, e, d) && Apply(c, e)[d].shutdownAt == Some(ShutdownTime(e, d))
  {
    if e.Reconcile? {
      assert Entry(Apply(c, e), d) == EntryAfter(c, e.input, d);
    }
  }

  /** From event j to event i, both excluded, the deployment was there and unwanted. */
  ghost predicate UnwantedBetween(c: Cluster, run: seq<Event>, d: string, j: nat, i: nat)
    requires i <= |run|
  {
    forall k | j < k < i :: LeavesUnwanted(run[k], d) && d in After(c, run, k)
  }

  /** A shutdown mark goes back to a reconcile that set it, and the deployment has been
      unwanted ever since. */
  lemma {:induction false} MarkOrigin(c: Cluster, run: seq<Event>, i: nat, d: string) returns (j: nat)
    requires i <= |run| && forall id | id in c :: c[id].shutdownAt.None?
    requires d in After(c, run, i) && After(c, run, i)[d].shutdownAt.Some?
    ensures j < i && Marks(After(c, run, j), run[j], d)
    ensures After(c, run, i)[d].shutdownAt == Some(ShutdownTime(run[j], d))
    ensures UnwantedBetween(c, run, d, j, i)
  {
    hide Apply, Marks, LeavesUnwanted;
    assert i > 0;
    var before := After(c, run, i - 1);
    MarkStep(before, run[i - 1], d);
    if before[d].shutdownAt.Some? {
      j := MarkOrigin(c, run, i - 1, d);
      assert UnwantedBetween(c, run, d, j, i - 1) && d in before;
    } else {
      j := i - 1;
    }
  }

  /** Every deletion was announced: an earlier reconcile marked the deployment while each
      of its remaining workspaces was in another rolled-out deployment; at least fifteen
      minutes, up to a second of rounding, lie between; and at every reconcile from the
      mark to the deletion the deployment was unwanted, or could not be written. */
  lemma {:induction false} DeletionWasAnnounced(c: Cluster, run: seq<Event>, i: nat, d: string) returns (j: nat)
    requires i < |run| && Deletes(After(c, run, i), run[i], d) && forall id | id in c :: c[id].shutdownAt.None?
    ensures j < i && Marks(After(c, run, j), run[j], d) && run[i].Reconcile?
    ensures run[i].input.deleteAt(d) > run[j].input.markAt(d) + SHUTDOWN_DELAY - SECOND
    ensures forall k | j < k <= i :: LeavesUnwanted(run[k], d) && d in After(c, run, k)
  {
    hide Apply, Marks, LeavesUnwanted;
    var before := After(c, run, i);
    DeleteStep(before, run[i], d);
    j := MarkOrigin(c, run, i, d);
  }

  /** Only a reconcile deletes, and only an unwanted deployment whose time is up. */
  lemma DeleteStep(c: Cluster, e: Event, d: string)
    requires Deletes(c, e, d)
    ensures e.Reconcile? && LeavesUnwanted(e, d) && c[d].shutdownAt.Some? && c[d].shutdownAt.value <= e.input.deleteAt(d)
  {
    if e.Reconcile? {
      assert Entry(Apply(c, e), d) == EntryAfter(c, e.input, d);
    }
  }

  /** A marked deployment that is still unwanted is deleted by the first reconcile that can
      write it fifteen minutes after the mark, and by none that comes a second or more before. */
  lemma MarkedIsDeletedInTime(c: Cluster, mark: Event, rollouts: seq<Event>, e: Event, d: string)
    requires Marks(c, mark, d) && forall i | 0 <= i < |rollouts| :: rollouts[i].Rollout?
    requires e.Reconcile? && d !in e.input.desired && d !in e.input.failing
    ensures var before := After(Apply(c, mark), rollouts, |rollouts|);
      && (e.input.deleteAt(d) >= mark.input.markAt(d) + 900_000_000_000 ==> d !in Apply(before, e))
      && (e.input.deleteAt(d) <= mark.input.markAt(d) + 899_000_000_000 ==> d in Apply(before, e))
  {
    MarkIsNotDelete(c, mark, d);
    RolloutsKeepWritten(Apply(c, mark), rollouts, |rollouts|, d);
    var before := After(Apply(c, mark), rollouts, |rollouts|);
    assert Entry(Apply(before, e), d) == EntryAfter(before, e.input, d);
  }

  /** What it takes to be marked: a deployment whose workspaces have all left the repository
      is; one with a workspace that is still there and in no other rolled-out deployment is not. */
  lemma MarkedIff(c: Cluster, input: Input, d: string)
    requires d in c && d !in input.desired && d !in input.failing && c[d].shutdownAt.None?
    ensures (forall ws | ws in c[d].workspaces :: ws !in input.known) ==> Marks(c, Reconcile(input), d)
    ensures Marks(c, Reconcile(input), d) <==>
      !exists ws | ws in c[d].workspaces :: ws in input.known && forall id | id in c && id != d :: !Serves(c, id, ws)
  {
    if exists ws | ws in c[d].workspaces :: ws in input.known && forall id | id in c && id != d :: !Serves(c, id, ws) {
      var ws :| ws in c[d].workspaces && ws in input.known && forall id | id in c && id != d :: !Serves(c, id, ws);
      assert !exists other | other in c :: other != d && ws in c[other].workspaces && c[other].rolledOut by {
        if other :| other in c && other != d && ws in c[other].workspaces && c[other].rolledOut {
          assert Serves(c, other, ws);
        }
      }
    } else {
      forall ws | ws in c[d].workspaces && ws in input.known
        ensures exists other | other in c :: other != d && ws in c[other].workspaces && c[other].rolledOut
      {
        var other :| other in c && other != d && Serves(c, other, ws);
      }
    }
  }

  /** No reconcile both marks and deletes a deployment. */
  lemma MarkIsNotDelete(c: Cluster, e: Event, d: string)
    requires Marks(c, e, d)
    ensures !Deletes(c, e, d) && Apply(c, e)[d] == c[d].(shutdownAt := Some(ShutdownTime(e, d)))
  {
    assert Entry(Apply(c, e), d) == EntryAfter(c, e.input, d);
  }

  /** A deployment wanted again before its time is up survives: the update clears the mark,
      and leaves it rolled out unless its pods are to change. */
  lemma WantedAgainIsKept(c: Cluster, input: Input, d: string)
    requires d in input.desired && d !in input.failing
    ensures d in ReconcileCluster(c, input) && ReconcileCluster(c, input)[d].shutdownAt.None?
    ensures d in c && c[d].rolledOut ==>
      (ReconcileCluster(c, input)[d].rolledOut <==> SamePods(c[d], input.desired[d]))
  {
    assert Entry(ReconcileCluster(c, input), d) == EntryAfter(c, input, d);
  }

  /** A reconcile writes what is wanted: every desired deployment that can be written has the
      wanted class and hashes, and the wanted workspaces unless it was left as it is; new ones
      are created now and the others keep their age. */
  lemma DesiredIsWritten(c: Cluster, input: Input, d: string)
    requires d in input.desired && d !in input.failing
    ensures var after, want := ReconcileCluster(c, input), input.desired[d];
      && d in after
      && after[d].class_ == want.class_ && after[d].hash == want.hash && after[d].operatorHash == want.operatorHash
      && (d in c && c[d].shutdownAt.None? && SamePods(c[d], want) ==> after[d] == c[d])
      && (d !in c || c[d].shutdownAt.Some? || !SamePods(c[d], want) ==> after[d].workspaces == want.workspaces)
      && after[d].createdAt == if d in c then c[d].createdAt else input.createAt(d)
  {
    assert Entry(ReconcileCluster(c, input), d) == EntryAfter(c, input, d);
  }

  /** A second reconcile that wants the same leaves it alone, rollout changes between the two
      included. */
  lemma SecondReconcileLeavesDesired(c: Cluster, input: Input, rollouts: seq<Event>, again: Input, d: string)
    requires d in input.desired && d !in input.failing && d in again.desired && again.desired[d] == input.desired[d]
    requires forall i | 0 <= i < |rollouts| :: rollouts[i].Rollout?
    ensures var between := After(ReconcileCluster(c, input), rollouts, |rollouts|);
      Entry(ReconcileCluster(between, again), d) == Entry(between, d)
  {
    DesiredIsWritten(c, input, d);
    WantedAgainIsKept(c, input, d);
    var first := ReconcileCluster(c, input);
    RolloutsKeepWritten(first, rollouts, |rollouts|, d);
    var between := After(first, rollouts, |rollouts|);
    assert SamePods(between[d], again.desired[d]) && between[d].shutdownAt.None?;
    assert Entry(ReconcileCluster(between, again), d) == EntryAfter(between, again, d);
  }

  lemma {:induction false} RolloutsKeepWritten(c: Cluster, rollouts: seq<Event>, n: nat, d: string)
    requires n <= |rollouts| && d in c && forall i | 0 <= i < |rollouts| :: rollouts[i].Rollout?
    ensures var after := After(c, rollouts, n);
      && d in after && after[d].class_ == c[d].class_ && after[d].hash == c[d].hash
      && after[d].operatorHash == c[d].operatorHash && after[d].shutdownAt == c[d].shutdownAt
  {
    if n > 0 { RolloutsKeepWritten(c, rollouts, n - 1, d); }
  }

  /** What is neither desired nor due stays, and nothing appears that is not desired. */
  lemma OthersStay(c: Cluster, input: Input, d: string)
    requires d !in input.desired
    ensures var after := ReconcileCluster(c, input);
      && (d in after ==> d in c && after[d].(shutdownAt := c[d].shutdownAt) == c[d])
      && (d in c && (c[d].shutdownAt.None? || input.deleteAt(d) < c[d].shutdownAt.value) ==> d in after)
      && (d in c && c[d].shutdownAt.None? && d in after ==>
            (after[d].shutdownAt.Some? <==> d !in input.failing && AllWorkspacesHandled(d, c, input.known)))
  {
    assert Entry(ReconcileCluster(c, input), d) == EntryAfter(c, input, d);
  }

  // ----- the announcement is all there is

  /** Some rolled-out deployment serves the workspace. */
  predicate Served(c: Cluster, ws: string) {
    exists id | id in c :: ws in c[id].workspaces && c[id].rolledOut
  }

  /** The reconcile leaves the pods of the deployment running: its writes fail, it is wanted
      with the same pods, marked or not, or it is unwanted and its time is not up. */
  predicate Stays(c: Cluster, input: Input, id: string)
    requires id in c
  {
    || id in input.failing
    || (id in input.desired && SamePods(c[id], input.desired[id]))
    || (id !in input.desired && (c[id].shutdownAt.None? || input.deleteAt(id) < c[id].shutdownAt.value))
  }

  predicate Serves(c: Cluster, id: string, ws: string) {
    id in c && ws in c[id].workspaces && c[id].rolledOut
  }

  /** The workspaces of the deployment after the reconcile. They are part of its config hash,
      so those of a deployment that stays are in practice the ones it has. */
  function WorkspacesAfter(c: Cluster, input: Input, id: string): multiset<string>
    requires id in c
  {
    if id !in input.failing && id in input.desired && NeedsDeploy(c[id], input.desired[id])
    then input.desired[id].workspaces else c[id].workspaces
  }

  predicate ServesAfter(c: Cluster, input: Input, id: string, ws: string) {
    id in c && c[id].rolledOut && Stays(c, input, id) && ws in WorkspacesAfter(c, input, id)
  }

  /** A workspace is served after a reconcile if and only if a rolled-out deployment stays
      that has it: nothing whose pods a reconcile replaces has rolled out yet. */
  lemma ServedAfterReconcileIff(c: Cluster, input: Input, ws: string)
    ensures Served(ReconcileCluster(c, input), ws) <==> exists id | id in c :: ServesAfter(c, input, id, ws)
  {
    var c' := ReconcileCluster(c, input);
    forall id ensures Serves(c', id, ws) <==> ServesAfter(c, input, id, ws) {
      assert Entry(c', id) == EntryAfter(c, input, id);
    }
    if Served(c', ws) {
      var id :| id in c' && ws in c'[id].workspaces && c'[id].rolledOut;
      assert Serves(c', id, ws);
    }
    if id :| id in c && ServesAfter(c, input, id, ws) {
      assert Serves(c', id, ws);
    }
  }

  /** The deployment serves the workspace once the event is over. */
  predicate ServesOn(c: Cluster, e: Event, id: string, ws: string) {
    match e
    case Reconcile(input) => ServesAfter(c, input, id, ws)
    case Rollout(d, rolledOut, _) => if d == id then id in c && ws in c[id].workspaces && rolledOut else Serves(c, id, ws)
  }

  lemma ServedAfterIff(c: Cluster, e: Event, ws: string)
    ensures Served(Apply(c, e), ws) <==> exists id | id in c :: ServesOn(c, e, id, ws)
  {
    if e.Reconcile? {
      ServedAfterReconcileIff(c, e.input, ws);
    } else {
      var c' := Apply(c, e);
      assert forall id :: Serves(c', id, ws) <==> ServesOn(c, e, id, ws);
      if Served(c', ws) {
        var id :| id in c' && ws in c'[id].workspaces && c'[id].rolledOut;
        assert Serves(c', id, ws);
      }
    }
  }

  /** Some deployment serves the workspace beyond event k. */
  ghost predicate LeavesServer(c: Cluster, run: seq<Event>, k: nat, ws: string)
    requires k < |run|
  {
    exists id | id in After(c, run, k) :: ServesOn(After(c, run, k), run[k], id, ws)
  }

  ghost predicate ServedBetween(c: Cluster, run: seq<Event>, j: nat, i: nat, ws: string)
    requires i <= |run|
  {
    forall k | j <= k <= i :: Served(After(c, run, k), ws)
  }

  ghost predicate ServersLeft(c: Cluster, run: seq<Event>, j: nat, i: nat, ws: string)
    requires i <= |run|
  {
    forall k | j <= k < i :: LeavesServer(c, run, k, ws)
  }

  /** Over every stretch of a run, from a mark to a deletion in particular, a workspace is
      served throughout if and only if it is at the start and every event leaves it a
      deployment: each reconcile one that stays, each rollout change one that is rolled out. */
  lemma {:induction false} ServedThroughoutIff(c: Cluster, run: seq<Event>, j: nat, i: nat, ws: string)
    requires j <= i <= |run|
    ensures ServedBetween(c, run, j, i, ws) <==> Served(After(c, run, j), ws) && ServersLeft(c, run, j, i, ws)
    decreases i
  {
    hide Served, Apply, LeavesServer;
    if j < i {
      ServedThroughoutIff(c, run, j, i - 1, ws);
      ServedNextIff(c, run, i - 1, ws);
      assert ServedBetween(c, run, j, i, ws) <==> ServedBetween(c, run, j, i - 1, ws) && Served(After(c, run, i), ws);
      assert ServersLeft(c, run, j, i, ws) <==> ServersLeft(c, run, j, i - 1, ws) && LeavesServer(c, run, i - 1, ws);
    }
  }

  lemma ServedNextIff(c: Cluster, run: seq<Event>, k: nat, ws: string)
    requires k < |run|
    ensures Served(After(c, run, k + 1), ws) <==> LeavesServer(c, run, k, ws)
  {
    hide Apply, ServesOn, Served;
    ServedAfterIff(After(c, run, k), run[k], ws);
  }

  /** Nothing but a reconcile that finds it changed, or a lost rollout, takes a deployment
      that is wanted at every reconcile away from its workspaces. */
  predicate KeepsWanted(e: Event, d: Deployment, id: string, ws: string) {
    match e
    case Reconcile(input) =>
      id in input.failing || (id in input.desired && SamePods(d, input.desired[id]) && ws in input.desired[id].workspaces)
    case Rollout(r, rolledOut, _) => r == id ==> rolledOut
  }

  /** So an alternative that is itself wanted closes the gap: whoever is deleted meanwhile,
      a rolled-out deployment wanted unchanged at every reconcile serves its workspaces
      all along. */
  lemma {:induction false} WantedAlternativeServes(c: Cluster, run: seq<Event>, j: nat, i: nat, id: string, ws: string)
    requires j <= i <= |run| && Serves(After(c, run, j), id, ws)
    requires forall k | j <= k < i && id in After(c, run, k) :: KeepsWanted(run[k], After(c, run, k)[id], id, ws)
    ensures Serves(After(c, run, i), id, ws) && Served(After(c, run, i), ws)
    decreases i
  {
    hide Apply, KeepsWanted;
    if j < i {
      WantedAlternativeServes(c, run, j, i - 1, id, ws);
      WantedStep(After(c, run, i - 1), run[i - 1], id, ws);
    }
  }

  lemma WantedStep(c: Cluster, e: Event, id: string, ws: string)
    requires Serves(c, id, ws) && KeepsWanted(e, c[id], id, ws)
    ensures Serves(Apply(c, e), id, ws)
  {
    if e.Reconcile? { assert Entry(Apply(c, e), id) == EntryAfter(c, e.input, id); }
  }

  /** Two unwanted deployments count as each other's alternative, so both go away although
      the workspace still exists and its wanted deployment has never rolled out. */
  lemma MutualAlternativesLeaveGap(a: string, b: string, w: string, ws: string)
    returns (c: Cluster, first: Event, second: Event)
    requires a != b && b != w && a != w
    ensures forall id | id in c :: c[id].shutdownAt.None?
    ensures forall e | e in {first, second} :: e.Reconcile? && ws in e.input.known
              && w in e.input.desired && ws in e.input.desired[w].workspaces
    ensures Served(c, ws) && !Served(Apply(Apply(c, first), second), ws)
  {
    var unwanted := Deployment(FREE, multiset{ws}, "", "", None, true, Some(0), 0);
    c := map[a := unwanted, b := unwanted];
    var wanted := Desired(FREE, multiset{ws}, "", "");
    var input := Input(map[w := wanted], {ws}, _ => 0, _ => 0, _ => SHUTDOWN_DELAY, {});
    first, second := Reconcile(input), Reconcile(input);
    var c1 := ReconcileCluster(c, input);
    MarkedTogether(c, input, a, b, ws);
    MarkedTogether(c, input, b, a, ws);
    assert Entry(c1, w) == Some(Deployed(c, w, wanted, 0));
    var c2 := ReconcileCluster(c1, input);
    forall id | id in c2 ensures !c2[id].rolledOut {
      assert Entry(c2, id) == EntryAfter(c1, input, id);
      assert Entry(c1, id) == EntryAfter(c, input, id);
    }
    assert c[a].rolledOut;
  }

  /** An unwanted deployment is marked on the strength of another that is rolled out. */
  lemma MarkedTogether(c: Cluster, input: Input, a: string, b: string, ws: string)
    requires a in c && b in c && a != b && c[a].workspaces == multiset{ws} && ws in c[b].workspaces && c[b].rolledOut
    requires a !in input.desired && a !in input.failing && c[a].shutdownAt.None?
    ensures Entry(ReconcileCluster(c, input), a)
         == Some(c[a].(shutdownAt := Some(WholeSeconds(input.markAt(a) + SHUTDOWN_DELAY))))
  {
    assert AllWorkspacesHandled(a, c, input.known);
  }

  /** The hand-over cut short: a workspace is served by the free deployment only, and its own
      deployment, created six minutes ago or more, has never rolled out. The next reconcile
      takes the workspace off the free list and redeploys the free deployment without it, so
      that nothing rolled out serves it any more. */
  lemma HandOverCutShort(workspaces: seq<Workspace>, c: Cluster, input: Input, now: int, i: nat, free: string)
    requires DistinctIds(workspaces) && i < |workspaces| && GetsDedicated(workspaces[i]) && !WantsFree(workspaces[i])
    requires var id := workspaces[i].id;
      && id in c && now - c[id].createdAt >= 6 * MINUTE
      && forall d | d in c && c[d].rolledOut && d != free ::
           id !in c[d].workspaces && (d in input.desired ==> id !in input.desired[d].workspaces)
    requires Serves(c, free, workspaces[i].id) && free !in input.failing
    requires free in input.desired && input.desired[free].workspaces == FreeOf(workspaces, c, now)
    ensures Served(c, workspaces[i].id)
    ensures !Served(ReconcileCluster(c, input), workspaces[i].id) <==> NeedsDeploy(c[free], input.desired[free])
  {
    var id := workspaces[i].id;
    FreeCount(workspaces, c, now, i);
    ServedAfterReconcileIff(c, input, id);
    if !NeedsDeploy(c[free], input.desired[free]) { assert ServesAfter(c, input, free, id); }
  }
}
