/** One reconcile of the functions-server operator: grouping workspaces into desired
    deployments, creating and updating them, and the two-pass delayed shutdown of
    deployments that are no longer wanted. */
module Operator {
  import opened Common

  const SHUTDOWN_DELAY: int := 15 * MINUTE

  const PREMIUM := "premium"
  const DEDICATED := "dedicated"
  const FREE := "free"

  datatype Workspace = Workspace(id: string, classes: seq<string>, hasConnections: bool, hasFunctions: bool, hash: string)

  /** A deployment as read back from the cluster. */
  datatype Deployment = Deployment(
    class_: string,
    workspaces: multiset<string>,
    hash: string,
    operatorHash: string,
    shutdownAt: Option<int>,
    rolledOut: bool,
    rolloutCompletedAt: Option<int>,
    createdAt: int)

  datatype Desired = Desired(class_: string, workspaces: multiset<string>, hash: string, operatorHash: string)

  type Cluster = map<string, Deployment>

  // ----- grouping

  predicate WantsFree(ws: Workspace) { FREE in ws.classes }

  predicate WantsDedicated(ws: Workspace) { PREMIUM in ws.classes || DEDICATED in ws.classes }

  /** The workspace gets a deployment of its own. */
  predicate GetsDedicated(ws: Workspace) { WantsDedicated(ws) && ws.hasConnections && ws.hasFunctions }

  /** The dedicated deployment has been rolled out for more than five minutes. */
  predicate HandedOver(ws: Workspace, existing: Cluster, now: int) {
    && ws.id in existing && existing[ws.id].rolledOut && existing[ws.id].rolloutCompletedAt.Some?
    && now - existing[ws.id].rolloutCompletedAt.value > 5 * MINUTE
  }

  /** A freshly created dedicated deployment has not yet served long enough. */
  predicate StillHandingOver(ws: Workspace, existing: Cluster, now: int) {
    (ws.id !in existing || now - existing[ws.id].createdAt < 6 * MINUTE) && !HandedOver(ws, existing, now)
  }

  /** How often the workspace is put on the free list. */
  function FreeCopies(ws: Workspace, existing: Cluster, now: int): nat {
    (if WantsFree(ws) then 1 else 0) +
    (if WantsDedicated(ws) && !GetsDedicated(ws) then 1
     else if GetsDedicated(ws) && !WantsFree(ws) && StillHandingOver(ws, existing, now) then 1
     else 0)
  }

  function DedicatedOf(workspaces: seq<Workspace>): map<string, Workspace> {
    if workspaces == [] then map[]
    else
      var ws := workspaces[|workspaces| - 1];
      var rest := DedicatedOf(workspaces[..|workspaces| - 1]);
      if GetsDedicated(ws) then rest[ws.id := ws] else rest
  }

  /** Ids on the free list, with multiplicity. */
  function FreeOf(workspaces: seq<Workspace>, existing: Cluster, now: int): multiset<string> {
    if workspaces == [] then multiset{}
    else
      var ws := workspaces[|workspaces| - 1];
      FreeOf(workspaces[..|workspaces| - 1], existing, now) + multiset{}[ws.id := FreeCopies(ws, existing, now)]
  }

  method GroupWorkspaces(workspaces: seq<Workspace>, existing: Cluster, now: int)
    returns (dedicated: map<string, Workspace>, free: seq<string>)
    ensures dedicated == DedicatedOf(workspaces)
    ensures multiset(free) == FreeOf(workspaces, existing, now)
  {
    dedicated, free := map[], [];
    for i := 0 to |workspaces|
      invariant dedicated == DedicatedOf(workspaces[..i])
      invariant multiset(free) == FreeOf(workspaces[..i], existing, now)
    {
      assert workspaces[..i + 1][..i] == workspaces[..i];
      var added, own := PlaceWorkspace(workspaces[i], existing, now);
      free := free + added;
      if own { dedicated := dedicated[workspaces[i].id := workspaces[i]]; }
    }
    assert workspaces[..|workspaces|] == workspaces;
  }

  /** The entries one workspace adds to the free list, and whether it is dedicated. */
  method PlaceWorkspace(ws: Workspace, existing: Cluster, now: int) returns (free: seq<string>, own: bool)
    ensures multiset(free) == multiset{}[ws.id := FreeCopies(ws, existing, now)]
    ensures own == GetsDedicated(ws)
  {
    free, own := [], false;
    if !WantsFree(ws) && !WantsDedicated(ws) { return; }
    var freeAdded := false;
    if WantsFree(ws) {
      free := free + [ws.id];
      freeAdded := true;
    }
    if WantsDedicated(ws) {
      if !ws.hasConnections || !ws.hasFunctions {
        free := free + [ws.id];
        return;
      }
      own := true;
      if !WantsFree(ws) {
        var isNew := ws.id !in existing || now - existing[ws.id].createdAt < 6 * MINUTE;
        if isNew {
          var ready := && ws.id in existing && existing[ws.id].rolledOut
                       && existing[ws.id].rolloutCompletedAt.Some?
                       && now - existing[ws.id].rolloutCompletedAt.value > 5 * MINUTE;
          if !ready && !freeAdded { free := free + [ws.id]; }
        }
      }
    }
  }

  ghost predicate DistinctIds(workspaces: seq<Workspace>) {
    forall i, j | 0 <= i < j < |workspaces| :: workspaces[i].id != workspaces[j].id
  }

  lemma {:induction false} FreeCount(workspaces: seq<Workspace>, existing: Cluster, now: int, i: nat)
    requires DistinctIds(workspaces) && i < |workspaces|
    ensures FreeOf(workspaces, existing, now)[workspaces[i].id] == FreeCopies(workspaces[i], existing, now)
  {
    var n := |workspaces| - 1;
    if i < n {
      FreeCount(workspaces[..n], existing, now, i);
    } else {
      NotOnFreeList(workspaces[..n], existing, now, workspaces[n].id);
    }
  }

  lemma {:induction false} NotOnFreeList(workspaces: seq<Workspace>, existing: Cluster, now: int, id: string)
    requires forall i | 0 <= i < |workspaces| :: workspaces[i].id != id
    ensures id !in FreeOf(workspaces, existing, now)
  {
    if workspaces != [] { NotOnFreeList(workspaces[..|workspaces| - 1], existing, now, id); }
  }

  lemma {:induction false} DedicatedKeeps(workspaces: seq<Workspace>, i: nat)
    requires DistinctIds(workspaces) && i < |workspaces| && GetsDedicated(workspaces[i])
    ensures workspaces[i].id in DedicatedOf(workspaces) && DedicatedOf(workspaces)[workspaces[i].id] == workspaces[i]
  {
    if i < |workspaces| - 1 { DedicatedKeeps(workspaces[..|workspaces| - 1], i); }
  }

  lemma {:induction false} DedicatedIff(workspaces: seq<Workspace>, i: nat)
    requires DistinctIds(workspaces) && i < |workspaces|
    ensures workspaces[i].id in DedicatedOf(workspaces) <==> GetsDedicated(workspaces[i])
  {
    var n := |workspaces| - 1;
    if i < n {
      DedicatedIff(workspaces[..n], i);
    } else {
      NotDedicated(workspaces[..n], workspaces[n].id);
    }
  }

  lemma {:induction false} NotDedicated(workspaces: seq<Workspace>, id: string)
    requires forall i | 0 <= i < |workspaces| :: workspaces[i].id != id
    ensures id !in DedicatedOf(workspaces)
  {
    if workspaces != [] { NotDedicated(workspaces[..|workspaces| - 1], id); }
  }

  /** Every workspace of a known class is placed: in a deployment of its own exactly when it
      asks for the premium or dedicated class and has something to run, and otherwise on the
      free list; on both during a hand-over; twice on the free list exactly when it asks for
      the free class and one of the others with nothing to run; and nowhere without a class. */
  lemma EveryWorkspacePlaced(workspaces: seq<Workspace>, existing: Cluster, now: int, i: nat)
    requires DistinctIds(workspaces) && i < |workspaces|
    ensures var ws, free, own := workspaces[i], FreeOf(workspaces, existing, now), DedicatedOf(workspaces);
      var asksFree, asksOwn := "free" in ws.classes, "premium" in ws.classes || "dedicated" in ws.classes;
      var runs := ws.hasConnections && ws.hasFunctions;
      && (ws.id in own <==> asksOwn && runs)
      && (asksFree || (asksOwn && !runs) ==> ws.id in free)
      && (asksOwn && runs && StillHandingOver(ws, existing, now) ==> ws.id in free)
      && (free[ws.id] > 1 <==> asksFree && asksOwn && !runs)
      && (!asksFree && !asksOwn ==> ws.id !in free)
  {
    FreeCount(workspaces, existing, now, i);
    DedicatedIff(workspaces, i);
  }

  /** A workspace moving to a deployment of its own stays on the free list until that one has
      been rolled out for five minutes, except when it was created six minutes ago or more
      and is still not ready: then the workspace leaves the free list all the same. */
  lemma HandOverKeptIff(workspaces: seq<Workspace>, existing: Cluster, now: int, i: nat)
    requires DistinctIds(workspaces) && i < |workspaces| && GetsDedicated(workspaces[i]) && !WantsFree(workspaces[i])
    ensures var ws := workspaces[i];
      var ready := ws.id in existing && existing[ws.id].rolledOut && existing[ws.id].rolloutCompletedAt.Some?
        && now > existing[ws.id].rolloutCompletedAt.value + 300_000_000_000;
      var young := ws.id !in existing || now < existing[ws.id].createdAt + 360_000_000_000;
      && (ws.id in FreeOf(workspaces, existing, now) <==> young && !ready)
      && (ready || ws.id in FreeOf(workspaces, existing, now) <==> ready || young)
  {
    FreeCount(workspaces, existing, now, i);
  }

  // ----- one reconcile

  /** Clock readings per deployment, the workspaces known to the repository, and the
      deployments whose writes the API server refuses in this pass. */
  datatype Input = Input(
    desired: map<string, Desired>,
    known: set<string>,
    createAt: string -> int,
    markAt: string -> int,
    deleteAt: string -> int,
    failing: set<string>)

  /** The shutdown annotation keeps whole seconds. */
  function WholeSeconds(t: int): int { t - t % SECOND }

  /** Nothing that shapes the pods differs, so an update leaves the running pods alone. */
  predicate SamePods(dep: Deployment, want: Desired) {
    dep.hash == want.hash && dep.operatorHash == want.operatorHash && dep.class_ == want.class_
  }

  predicate NeedsDeploy(dep: Deployment, want: Desired) {
    dep.shutdownAt.Some? || !SamePods(dep, want)
  }

  /** Every workspace of the deployment has left the repository or is in another
      deployment that has rolled out. */
  predicate AllWorkspacesHandled(id: string, existing: Cluster, known: set<string>)
    requires id in existing
  {
    forall ws | ws in existing[id].workspaces && ws in known ::
      exists other | other in existing :: other != id && ws in existing[other].workspaces && existing[other].rolledOut
  }

  function Entry(c: Cluster, id: string): Option<Deployment> {
    if id in c then Some(c[id]) else None
  }

  /** A deployment as written: it is rolled out only if its pods stay as they were. */
  function Deployed(c: Cluster, id: string, want: Desired, now: int): Deployment {
    if id in c && SamePods(c[id], want) then c[id].(shutdownAt := None, workspaces := want.workspaces)
    else
      Deployment(want.class_, want.workspaces, want.hash, want.operatorHash, None, false, None,
                 if id in c then c[id].createdAt else now)
  }

  /** What one reconcile leaves of a deployment. */
  function EntryAfter(c: Cluster, input: Input, id: string): Option<Deployment> {
    if id in input.failing then Entry(c, id)
    else if id in input.desired then
      if id !in c || NeedsDeploy(c[id], input.desired[id])
      then Some(Deployed(c, id, input.desired[id], input.createAt(id))) else Some(c[id])
    else if id !in c then None
    else if c[id].shutdownAt.None? then
      if AllWorkspacesHandled(id, c, input.known)
      then Some(c[id].(shutdownAt := Some(WholeSeconds(input.markAt(id) + SHUTDOWN_DELAY)))) else Some(c[id])
    else if input.deleteAt(id) < c[id].shutdownAt.value then Some(c[id])
    else None
  }

  /** The reconcile has dealt with these deployments and with no others yet. */
  ghost predicate DealtWith(c: Cluster, existing: Cluster, input: Input, done: set<string>) {
    forall id :: Entry(c, id) == if id in done then EntryAfter(existing, input, id) else Entry(existing, id)
  }

  function Unmarked(c: Cluster): set<string> {
    set id | id in c && c[id].shutdownAt.None?
  }

  class FunctionsOperator {
    var cluster: Cluster

    constructor ()
      ensures cluster == map[]
    {
      cluster := map[];
    }

    method Reconcile(input: Input)
      modifies this
      ensures forall id :: Entry(cluster, id) == EntryAfter(old(cluster), input, id)
    {
      var existing := cluster;
      CreateOrUpdate(input);
      MarkForShutdown(existing, input);
      DeleteExpired(existing, input);
    }

    /** Create and update desired deployments; an update clears the shutdown mark. */
    method CreateOrUpdate(input: Input)
      modifies this
      ensures DealtWith(cluster, old(cluster), input, input.desired.Keys)
    {
      var existing := cluster;
      var rest := input.desired.Keys;
      while rest != {}
        invariant rest <= input.desired.Keys
        invariant DealtWith(cluster, existing, input, input.desired.Keys - rest)
        decreases rest
      {
        var id :| id in rest;
        rest := rest - {id};
        var want := input.desired[id];
        if id !in input.failing && (id !in existing || NeedsDeploy(existing[id], want)) {
          cluster := cluster[id := Deployed(existing, id, want, input.createAt(id))];
        }
      }
    }

    /** Pass 1 annotates unwanted deployments whose workspaces are taken care of. */
    method MarkForShutdown(existing: Cluster, input: Input)
      requires DealtWith(cluster, existing, input, input.desired.Keys)
      modifies this
      ensures DealtWith(cluster, existing, input, input.desired.Keys + Unmarked(existing))
    {
      var rest := existing.Keys;
      while rest != {}
        invariant rest <= existing.Keys
        invariant DealtWith(cluster, existing, input, input.desired.Keys + (Unmarked(existing) - rest))
        decreases rest
      {
        var id :| id in rest;
        rest := rest - {id};
        if id !in input.desired && existing[id].shutdownAt.None? {
          var handled := WorkspacesHandled(id, existing, input.known);
          if handled && id !in input.failing {
            var at := WholeSeconds(input.markAt(id) + SHUTDOWN_DELAY);
            cluster := cluster[id := existing[id].(shutdownAt := Some(at))];
          }
        }
      }
    }

    /** Pass 2 deletes unwanted deployments whose shutdown time, as read at the start of
        this reconcile, has passed. */
    method DeleteExpired(existing: Cluster, input: Input)
      requires DealtWith(cluster, existing, input, input.desired.Keys + Unmarked(existing))
      modifies this
      ensures forall id :: Entry(cluster, id) == EntryAfter(existing, input, id)
    {
      var rest := existing.Keys;
      while rest != {}
        invariant rest <= existing.Keys
        invariant DealtWith(cluster, existing, input,
                            input.desired.Keys + Unmarked(existing) + (existing.Keys - rest))
        decreases rest
      {
        var id :| id in rest;
        rest := rest - {id};
        if id !in input.desired && existing[id].shutdownAt.Some? && id !in input.failing
           && !(input.deleteAt(id) < existing[id].shutdownAt.value) {
          cluster := cluster - {id};
        }
      }
    }

    method WorkspacesHandled(id: string, existing: Cluster, known: set<string>) returns (handled: bool)
      requires id in existing
      ensures handled == AllWorkspacesHandled(id, existing, known)
    {
      var left := existing[id].workspaces;
      while left != multiset{}
        invariant left <= existing[id].workspaces
        invariant forall ws | ws in existing[id].workspaces && ws !in left && ws in known ::
          exists other | other in existing :: other != id && ws in existing[other].workspaces && existing[other].rolledOut
        decreases |left|
      {
        var ws :| ws in left;
        left := left - multiset{ws};
        if ws in known {
          var hasAlternative := false;
          var others := existing.Keys;
          while others != {} && !hasAlternative
            invariant others <= existing.Keys
            invariant hasAlternative <==> exists other | other in existing.Keys - others ::
              other != id && ws in existing[other].workspaces && existing[other].rolledOut
            decreases others
          {
            var other :| other in others;
            others := others - {other};
            if other != id && ws in existing[other].workspaces && existing[other].rolledOut {
              hasAlternative := true;
            }
          }
          if !hasAlternative { return false; }
        }
      }
      return true;
    }
  }
}
