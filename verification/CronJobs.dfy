/** The CronJob controllers of the sync controller: one for connector syncs, one for reverse
    syncs, each making the CronJobs it owns follow its list of scheduled syncs. */
module CronJobs {

  import opened Common
  import LeaseGate

  datatype SyncEntry = SyncEntry(id: string, schedule: string, config: string)

  /** A CronJob by its labels and its config-hash annotation. */
  datatype CronJob = CronJob(managed: bool, reverse: bool, syncId: string, hash: string)

  /** `digest` is the shortened SHA-256 of an id and `hash` the config hash of an entry. */
  datatype Controller = Controller(reverse: bool, digest: string -> string, hash: SyncEntry -> string)

  type Jobs = map<string, CronJob>

  // ----- names, labels, the desired set

  function Prefix(c: Controller): string { if c.reverse then "reverse-" else "sync-" }

  function ResourceName(c: Controller, id: string): string {
    if c.reverse then "reverse-" + c.digest(id) else "sync-" + LeaseGate.SafeName(id)
  }

  function Built(c: Controller, e: SyncEntry): CronJob {
    CronJob(true, c.reverse, e.id, c.hash(e))
  }

  /** Listed by the controller's label selector and carrying a sync id. */
  predicate Mine(c: Controller, j: CronJob) {
    j.managed && j.reverse == c.reverse && j.syncId != ""
  }

  predicate WellNamed(c: Controller, jobs: Jobs) {
    forall n | n in jobs :: Mine(c, jobs[n]) ==> n == ResourceName(c, jobs[n].syncId)
  }

  function Labels(c: Controller, jobs: Jobs): set<string> {
    set n | n in jobs && Mine(c, jobs[n]) :: jobs[n].syncId
  }

  /** What the controller remembers of a listed CronJob. */
  datatype Listed = Listed(name: string, job: CronJob)

  /** The listing by sync id; of several CronJobs with one id any may come last and count. */
  ghost predicate IsListing(c: Controller, jobs: Jobs, current: map<string, Listed>) {
    && current.Keys == Labels(c, jobs)
    && forall id | id in current :: current[id].name in jobs && jobs[current[id].name] == current[id].job
         && Mine(c, current[id].job) && current[id].job.syncId == id
  }

  predicate IsSpace(ch: char) {
    || ch in "\t\n\r " || ch in ['\U{B}', '\U{C}', '\U{85}', '\U{A0}', '\U{1680}']
    || '\U{2000}' <= ch <= '\U{200A}' || ch in ['\U{2028}', '\U{2029}', '\U{202F}', '\U{205F}', '\U{3000}']
  }

  predicate IsBlank(s: string) { forall i | 0 <= i < |s| :: IsSpace(s[i]) }

  ghost predicate Keyed(desired: map<string, SyncEntry>) {
    forall id | id in desired :: desired[id].id == id
  }

  /** The scheduled syncs by id; the last entry of an id counts. */
  function Desired(syncs: seq<SyncEntry>): map<string, SyncEntry> {
    if syncs == [] then map[]
    else
      var e := syncs[|syncs| - 1];
      var d := Desired(syncs[..|syncs| - 1]);
      if IsBlank(e.schedule) then d else d[e.id := e]
  }

  /** Exactly the ids with a scheduled entry are desired, each by one of these entries. */
  lemma {:induction false} DesiredMeaning(syncs: seq<SyncEntry>)
    ensures Keyed(Desired(syncs))
    ensures forall id | id in Desired(syncs) :: Desired(syncs)[id] in syncs && !IsBlank(Desired(syncs)[id].schedule)
    ensures forall e | e in syncs :: !IsBlank(e.schedule) ==> e.id in Desired(syncs)
  {
    if syncs != [] {
      var n := |syncs| - 1;
      DesiredMeaning(syncs[..n]);
      assert forall e | e in syncs :: e in syncs[..n] || e == syncs[n];
    }
  }

  lemma DesiredNext(syncs: seq<SyncEntry>, n: nat)
    requires n < |syncs|
    ensures Desired(syncs[..n + 1])
         == if IsBlank(syncs[n].schedule) then Desired(syncs[..n]) else Desired(syncs[..n])[syncs[n].id := syncs[n]]
  {
    hide IsBlank;
    assert syncs[..n + 1][..n] == syncs[..n];
  }

  /** Of repeated ids among the first n the last scheduled entry counts. */
  lemma {:induction false} DesiredIsLast(syncs: seq<SyncEntry>, n: nat, id: string) returns (i: nat)
    requires n <= |syncs| && id in Desired(syncs[..n])
    ensures i < n && Desired(syncs[..n])[id] == syncs[i] && syncs[i].id == id && !IsBlank(syncs[i].schedule)
    ensures forall j | i < j < n :: syncs[j].id == id ==> IsBlank(syncs[j].schedule)
  {
    hide IsBlank;
    DesiredNext(syncs, n - 1);
    if syncs[n - 1].id == id && !IsBlank(syncs[n - 1].schedule) {
      i := n - 1;
    } else {
      i := DesiredIsLast(syncs, n - 1, id);
    }
  }

  // ----- one reconcile

  /** Create, leave or update the CronJob of one desired sync. A create that finds the name
      taken is reported as a success and writes nothing; an update goes to the sync's own
      name and is refused unless that is the CronJob listed, unchanged since. */
  function Upsert(c: Controller, jobs: Jobs, current: map<string, Listed>, e: SyncEntry): Jobs {
    var n := ResourceName(c, e.id);
    if e.id !in current then (if n in jobs then jobs else jobs[n := Built(c, e)])
    else if current[e.id].job.hash == c.hash(e) then jobs
    else if n in jobs && current[e.id] == Listed(n, jobs[n]) then jobs[n := Built(c, e)]
    else jobs
  }

  /** The desired syncs in the given order, API calls failing for some of them. */
  function Upserts(c: Controller, jobs: Jobs, current: map<string, Listed>, order: seq<SyncEntry>, failing: set<string>): Jobs {
    if order == [] then jobs
    else
      var before := Upserts(c, jobs, current, order[..|order| - 1], failing);
      var e := order[|order| - 1];
      if e.id in failing then before else Upsert(c, before, current, e)
  }

  function Deletes(c: Controller, jobs: Jobs, order: seq<string>, failing: set<string>): Jobs {
    if order == [] then jobs
    else
      var before := Deletes(c, jobs, order[..|order| - 1], failing);
      var id := order[|order| - 1];
      if id in failing then before else before - {ResourceName(c, id)}
  }

  /** The listing of one reconcile and the order in which it happens to visit its maps. */
  datatype Plan = Plan(current: map<string, Listed>, upserts: seq<SyncEntry>, deletes: seq<string>)

  ghost predicate DistinctIds(order: seq<SyncEntry>) {
    forall i, j | 0 <= i < j < |order| :: order[i].id != order[j].id
  }

  ghost predicate IsPlan(c: Controller, jobs: Jobs, desired: map<string, SyncEntry>, plan: Plan) {
    && IsListing(c, jobs, plan.current)
    && DistinctIds(plan.upserts)
    && (forall e :: e in plan.upserts <==> e.id in desired && desired[e.id] == e)
    && (forall id :: id in plan.deletes <==> id in Labels(c, jobs) && id !in desired)
  }

  function Reconciled(c: Controller, jobs: Jobs, plan: Plan, failing: set<string>): Jobs {
    Deletes(c, Upserts(c, jobs, plan.current, plan.upserts, failing), plan.deletes, failing)
  }

  class Cluster {
    var jobs: Jobs

    method ListCurrent(c: Controller) returns (current: map<string, Listed>)
      ensures IsListing(c, jobs, current)
    {
      current := map[];
      var left := jobs.Keys;
      while left != {}
        invariant left <= jobs.Keys
        invariant forall n | n in jobs.Keys - left :: Mine(c, jobs[n]) ==> jobs[n].syncId in current
        invariant forall id | id in current :: current[id].name in jobs && jobs[current[id].name] == current[id].job
        invariant forall id | id in current :: Mine(c, current[id].job) && current[id].job.syncId == id
      {
        var n :| n in left;
        if Mine(c, jobs[n]) { current := current[jobs[n].syncId := Listed(n, jobs[n])]; }
        left := left - {n};
      }
      assert current.Keys == Labels(c, jobs);
    }

    static method BuildDesired(syncs: seq<SyncEntry>) returns (desired: map<string, SyncEntry>)
      ensures desired == Desired(syncs)
    {
      desired := map[];
      for i := 0 to |syncs|
        invariant desired == Desired(syncs[..i])
      {
        assert syncs[..i + 1][..i] == syncs[..i];
        if IsBlank(syncs[i].schedule) { continue; }
        desired := desired[syncs[i].id := syncs[i]];
      }
      assert syncs[..|syncs|] == syncs;
    }

    method CreateOrUpdate(c: Controller, current: map<string, Listed>, e: SyncEntry)
      modifies this
      ensures jobs == Upsert(c, old(jobs), current, e)
    {
      var n := ResourceName(c, e.id);
      if e.id !in current {
        if n !in jobs { jobs := jobs[n := Built(c, e)]; }
      } else if current[e.id].job.hash != c.hash(e) {
        if n in jobs && current[e.id].name == n && current[e.id].job == jobs[n] { jobs := jobs[n := Built(c, e)]; }
      }
    }

    method UpsertAll(c: Controller, current: map<string, Listed>, desired: map<string, SyncEntry>, failing: set<string>)
      returns (ghost order: seq<SyncEntry>)
      requires Keyed(desired)
      modifies this
      ensures DistinctIds(order) && forall e :: e in order <==> e.id in desired && desired[e.id] == e
      ensures jobs == Upserts(c, old(jobs), current, order, failing)
    {
      order := [];
      var left := desired.Keys;
      while left != {}
        invariant left <= desired.Keys && DistinctIds(order)
        invariant forall e :: e in order <==> e.id in desired.Keys - left && desired[e.id] == e
        invariant jobs == Upserts(c, old(jobs), current, order, failing)
      {
        var id :| id in left;
        var e := desired[id];
        if id !in failing { CreateOrUpdate(c, current, e); }
        assert (order + [e])[..|order|] == order;
        order := order + [e];
        left := left - {id};
      }
    }

    method DeleteAll(c: Controller, current: map<string, Listed>, desired: map<string, SyncEntry>, failing: set<string>)
      returns (ghost order: seq<string>)
      modifies this
      ensures forall id :: id in order <==> id in current && id !in desired
      ensures jobs == Deletes(c, old(jobs), order, failing)
    {
      order := [];
      var left := current.Keys;
      while left != {}
        invariant left <= current.Keys
        invariant forall id :: id in order <==> id in current.Keys - left && id !in desired
        invariant jobs == Deletes(c, old(jobs), order, failing)
      {
        var id :| id in left;
        left := left - {id};
        if id in desired { continue; }
        if id !in failing { jobs := jobs - {ResourceName(c, id)}; }
        assert (order + [id])[..|order|] == order;
        order := order + [id];
      }
    }

    /** One reconcile; nothing happens without data or when listing fails. */
    method Reconcile(c: Controller, syncs: Option<seq<SyncEntry>>, listFails: bool, failing: set<string>)
      returns (ghost plan: Plan)
      modifies this
      ensures syncs.None? || listFails ==> jobs == old(jobs)
      ensures syncs.Some? && !listFails ==>
        IsPlan(c, old(jobs), Desired(syncs.value), plan) && jobs == Reconciled(c, old(jobs), plan, failing)
    {
      plan := Plan(map[], [], []);
      if syncs.None? { return; }
      var desired := BuildDesired(syncs.value);
      DesiredMeaning(syncs.value);
      if listFails { return; }
      var current := ListCurrent(c);
      ghost var upserts := UpsertAll(c, current, desired, failing);
      ghost var deletes := DeleteAll(c, current, desired, failing);
      plan := Plan(current, upserts, deletes);
    }
  }

  // ----- what a reconcile does to one name

  lemma {:induction false} UpsertsLeave(c: Controller, jobs: Jobs, current: map<string, Listed>, order: seq<SyncEntry>,
                                        failing: set<string>, n: string)
    requires forall e | e in order :: ResourceName(c, e.id) != n
    ensures n in Upserts(c, jobs, current, order, failing) <==> n in jobs
    ensures n in jobs ==> Upserts(c, jobs, current, order, failing)[n] == jobs[n]
  {
    if order != [] {
      UpsertsLeave(c, jobs, current, order[..|order| - 1], failing, n);
      assert order[|order| - 1] in order;
    }
  }

  /** A name used by one desired sync only ends as that sync's own step leaves it. */
  lemma {:induction false} UpsertsAt(c: Controller, jobs: Jobs, current: map<string, Listed>, order: seq<SyncEntry>,
                                     failing: set<string>, k: nat)
    requires k < |order| && order[k].id !in failing
    requires forall i | 0 <= i < |order| :: i != k ==> ResourceName(c, order[i].id) != ResourceName(c, order[k].id)
    ensures var n, after, step := ResourceName(c, order[k].id), Upserts(c, jobs, current, order, failing), Upsert(c, jobs, current, order[k]);
      (n in after <==> n in step) && (n in step ==> after[n] == step[n])
  {
    var last := |order| - 1;
    if k < last {
      UpsertsAt(c, jobs, current, order[..last], failing, k);
    } else {
      UpsertsLeave(c, jobs, current, order[..last], failing, ResourceName(c, order[k].id));
    }
  }

  lemma {:induction false} DeletesAt(c: Controller, jobs: Jobs, order: seq<string>, failing: set<string>, n: string)
    ensures var after := Deletes(c, jobs, order, failing);
      && (n in after <==> n in jobs && !exists id :: id in order && id !in failing && ResourceName(c, id) == n)
      && (n in after ==> after[n] == jobs[n])
  {
    if order != [] {
      var rest := order[..|order| - 1];
      DeletesAt(c, jobs, rest, failing, n);
      assert order == rest + [order[|order| - 1]];
    }
  }

  // ----- convergence

  /** The CronJob is that of the sync, under its name and up to date. */
  predicate Settled(c: Controller, jobs: Jobs, e: SyncEntry) {
    var n := ResourceName(c, e.id);
    n in jobs && Mine(c, jobs[n]) && jobs[n].syncId == e.id && jobs[n].hash == c.hash(e)
  }

  /** The CronJob belongs to a desired sync, under its name. */
  predicate InPlace(c: Controller, jobs: Jobs, desired: map<string, SyncEntry>, n: string)
    requires n in jobs
  {
    jobs[n].syncId in desired && n == ResourceName(c, jobs[n].syncId)
  }

  /** The controller's CronJobs are exactly those of the desired syncs, up to date. */
  ghost predicate Exact(c: Controller, jobs: Jobs, desired: map<string, SyncEntry>) {
    && (forall id | id in desired :: Settled(c, jobs, desired[id]))
    && (forall n | n in jobs :: Mine(c, jobs[n]) ==> InPlace(c, jobs, desired, n))
  }

  /** The name is that of a listed sync that is no longer desired. */
  ghost predicate Doomed(c: Controller, jobs: Jobs, desired: map<string, SyncEntry>, n: string) {
    exists id :: id in Labels(c, jobs) && id !in desired && ResourceName(c, id) == n
  }

  /** The sync's name is free, or holds its own CronJob, which is up to date or the one listed. */
  predicate Prepared(c: Controller, jobs: Jobs, current: map<string, Listed>, e: SyncEntry) {
    var n := ResourceName(c, e.id);
    if e.id !in current then n !in jobs
    else n in jobs && Mine(c, jobs[n]) && jobs[n].syncId == e.id && (jobs[n].hash == c.hash(e) || current[e.id].name == n)
  }

  ghost predicate DistinctNames(c: Controller, desired: map<string, SyncEntry>) {
    forall a, b | a in desired && b in desired :: ResourceName(c, a) == ResourceName(c, b) ==> a == b
  }

  /** Desired syncs have names of their own, in order and not about to be deleted, and every
      other CronJob of the controller is about to be deleted. */
  ghost predicate InOrder(c: Controller, jobs: Jobs, desired: map<string, SyncEntry>, current: map<string, Listed>) {
    && "" !in desired && DistinctNames(c, desired)
    && (forall id | id in desired :: Prepared(c, jobs, current, desired[id]) && !Doomed(c, jobs, desired, ResourceName(c, id)))
    && (forall n | n in jobs :: Mine(c, jobs[n]) && !InPlace(c, jobs, desired, n) ==> Doomed(c, jobs, desired, n))
  }

  /** A desired sync with a name of its own: its name ends as its own step leaves it, unless
      it is deleted after. */
  lemma OwnStepDecides(c: Controller, jobs: Jobs, desired: map<string, SyncEntry>, plan: Plan, id: string)
    requires IsPlan(c, jobs, desired, plan) && DistinctNames(c, desired) && Keyed(desired) && id in desired
    ensures var n, after, step := ResourceName(c, id), Reconciled(c, jobs, plan, {}), Upsert(c, jobs, plan.current, desired[id]);
      && (n in after <==> n in step && !Doomed(c, jobs, desired, n))
      && (n in after ==> after[n] == step[n])
  {
    var n := ResourceName(c, id);
    assert desired[id] in plan.upserts;
    var k :| 0 <= k < |plan.upserts| && plan.upserts[k] == desired[id];
    forall i | 0 <= i < |plan.upserts| && i != k ensures ResourceName(c, plan.upserts[i].id) != n {
      assert plan.upserts[i] in plan.upserts;
    }
    UpsertsAt(c, jobs, plan.current, plan.upserts, {}, k);
    DeletesAt(c, Upserts(c, jobs, plan.current, plan.upserts, {}), plan.deletes, {}, n);
  }

  /** Any other name keeps what it holds, unless it is deleted. */
  lemma OtherNameStays(c: Controller, jobs: Jobs, desired: map<string, SyncEntry>, plan: Plan, n: string)
    requires IsPlan(c, jobs, desired, plan) && forall id | id in desired :: ResourceName(c, id) != n
    ensures var after := Reconciled(c, jobs, plan, {});
      && (n in after <==> n in jobs && !Doomed(c, jobs, desired, n))
      && (n in after ==> after[n] == jobs[n])
  {
    UpsertsLeave(c, jobs, plan.current, plan.upserts, {}, n);
    DeletesAt(c, Upserts(c, jobs, plan.current, plan.upserts, {}), plan.deletes, {}, n);
  }

  /** The own step settles the sync if and only if it was prepared. */
  lemma StepSettlesIff(c: Controller, jobs: Jobs, current: map<string, Listed>, e: SyncEntry)
    requires IsListing(c, jobs, current) && e.id != ""
    ensures Settled(c, Upsert(c, jobs, current, e), e) <==> Prepared(c, jobs, current, e)
  {
    var n := ResourceName(c, e.id);
    if n in jobs && Mine(c, jobs[n]) && jobs[n].syncId == e.id { assert e.id in Labels(c, jobs); }
  }

  lemma InOrderConverges(c: Controller, jobs: Jobs, desired: map<string, SyncEntry>, plan: Plan)
    requires IsPlan(c, jobs, desired, plan) && Keyed(desired) && InOrder(c, jobs, desired, plan.current)
    ensures Exact(c, Reconciled(c, jobs, plan, {}), desired)
  {
    hide Reconciled, Upsert, Prepared;
    var after := Reconciled(c, jobs, plan, {});
    forall id | id in desired ensures Settled(c, after, desired[id]) {
      OwnStepDecides(c, jobs, desired, plan, id);
      StepSettlesIff(c, jobs, plan.current, desired[id]);
    }
    forall n | n in after && Mine(c, after[n]) ensures InPlace(c, after, desired, n) {
      if id :| id in desired && ResourceName(c, id) == n {
        assert Settled(c, after, desired[id]);
      } else {
        OtherNameStays(c, jobs, desired, plan, n);
      }
    }
  }

  lemma ConvergedWasInOrder(c: Controller, jobs: Jobs, desired: map<string, SyncEntry>, plan: Plan)
    requires IsPlan(c, jobs, desired, plan) && Keyed(desired) && Exact(c, Reconciled(c, jobs, plan, {}), desired)
    ensures InOrder(c, jobs, desired, plan.current)
  {
    hide Reconciled, Upsert;
    var after := Reconciled(c, jobs, plan, {});
    assert forall id | id in desired :: Settled(c, after, desired[id]);
    forall id | id in desired
      ensures Prepared(c, jobs, plan.current, desired[id]) && !Doomed(c, jobs, desired, ResourceName(c, id))
    {
      OwnStepDecides(c, jobs, desired, plan, id);
      StepSettlesIff(c, jobs, plan.current, desired[id]);
    }
    forall n | n in jobs && Mine(c, jobs[n]) && !InPlace(c, jobs, desired, n) ensures Doomed(c, jobs, desired, n) {
      if forall id | id in desired :: ResourceName(c, id) != n { OtherNameStays(c, jobs, desired, plan, n); }
    }
  }

  /** From any cluster, one reconcile without API failures, in whatever order it lists and
      visits, makes the controller's CronJobs exactly the scheduled syncs with matching
      hashes if and only if the names are in order. */
  lemma ReconcileConvergesIff(c: Controller, jobs: Jobs, syncs: seq<SyncEntry>, plan: Plan)
    requires IsPlan(c, jobs, Desired(syncs), plan)
    ensures Exact(c, Reconciled(c, jobs, plan, {}), Desired(syncs)) <==> InOrder(c, jobs, Desired(syncs), plan.current)
  {
    hide Reconciled, InOrder, Exact;
    DesiredMeaning(syncs);
    if InOrder(c, jobs, Desired(syncs), plan.current) { InOrderConverges(c, jobs, Desired(syncs), plan); }
    if Exact(c, Reconciled(c, jobs, plan, {}), Desired(syncs)) { ConvergedWasInOrder(c, jobs, Desired(syncs), plan); }
  }

  /** Every desired sync has its name to itself: no other desired sync shares it, and no
      CronJob of anything else already holds it. */
  ghost predicate NamesAreFree(c: Controller, jobs: Jobs, desired: map<string, SyncEntry>) {
    && "" !in desired && DistinctNames(c, desired)
    && (forall id | id in desired && ResourceName(c, id) in jobs ::
          Mine(c, jobs[ResourceName(c, id)]) && jobs[ResourceName(c, id)].syncId == id)
  }

  /** Where the controller's CronJobs are named after their syncs, as it names them itself,
      names are in order if and only if they are free. */
  lemma WellNamedInOrderIff(c: Controller, jobs: Jobs, desired: map<string, SyncEntry>, current: map<string, Listed>)
    requires WellNamed(c, jobs) && IsListing(c, jobs, current) && Keyed(desired)
    ensures InOrder(c, jobs, desired, current) <==> NamesAreFree(c, jobs, desired)
  {
    if NamesAreFree(c, jobs, desired) {
      forall id | id in desired
        ensures Prepared(c, jobs, current, desired[id]) && !Doomed(c, jobs, desired, ResourceName(c, id))
      {
        if ResourceName(c, id) in jobs { assert id in Labels(c, jobs); }
      }
    }
    if InOrder(c, jobs, desired, current) {
      forall id | id in desired && ResourceName(c, id) in jobs
        ensures Mine(c, jobs[ResourceName(c, id)]) && jobs[ResourceName(c, id)].syncId == id
      {
        assert Prepared(c, jobs, current, desired[id]);
      }
    }
  }

  /** And where nothing foreign holds a desired name, they are free if and only if naming is
      injective on the desired and the existing syncs together. */
  lemma FreeMeansInjective(c: Controller, jobs: Jobs, desired: map<string, SyncEntry>)
    requires WellNamed(c, jobs) && "" !in desired
    requires forall id | id in desired && ResourceName(c, id) in jobs :: Mine(c, jobs[ResourceName(c, id)])
    ensures NamesAreFree(c, jobs, desired) <==>
      forall a, b | a in desired.Keys + Labels(c, jobs) && b in desired.Keys + Labels(c, jobs) ::
        ResourceName(c, a) == ResourceName(c, b) ==> a == b
  {
    var ids := desired.Keys + Labels(c, jobs);
    if forall a, b | a in ids && b in ids :: ResourceName(c, a) == ResourceName(c, b) ==> a == b {
      forall id | id in desired && ResourceName(c, id) in jobs ensures jobs[ResourceName(c, id)].syncId == id {
        assert jobs[ResourceName(c, id)].syncId in Labels(c, jobs);
      }
    }
  }

  /** Two scheduled syncs with one name never both get a CronJob, whatever else is scheduled
      and whatever is there. */
  lemma SharedNameNeverConverges(c: Controller, jobs: Jobs, syncs: seq<SyncEntry>, plan: Plan, a: string, b: string)
    requires IsPlan(c, jobs, Desired(syncs), plan)
    requires a in Desired(syncs) && b in Desired(syncs) && a != b && ResourceName(c, a) == ResourceName(c, b)
    ensures !Exact(c, Reconciled(c, jobs, plan, {}), Desired(syncs))
  {
    hide Reconciled, Exact;
    ReconcileConvergesIff(c, jobs, syncs, plan);
  }

  /** Connector syncs whose ids differ only in case or punctuation are such a case. */
  lemma CollidingIdsNeverConverge(c: Controller, jobs: Jobs, syncs: seq<SyncEntry>, plan: Plan, a: string, b: string)
    requires !c.reverse && IsPlan(c, jobs, Desired(syncs), plan)
    requires a in Desired(syncs) && b in Desired(syncs) && a != b && LeaseGate.Alike(a, b)
    ensures !Exact(c, Reconciled(c, jobs, plan, {}), Desired(syncs))
  {
    LeaseGate.AlikeIdsCollide(a, b);
    SharedNameNeverConverges(c, jobs, syncs, plan, a, b);
  }

  /** A CronJob of the controller under a name that belongs to no listed or desired sync is
      never touched: it is listed at every reconcile, and updated and deleted under the
      other name. */
  lemma MisnamedIsNeverRemoved(c: Controller, jobs: Jobs, desired: map<string, SyncEntry>, plan: Plan, failing: set<string>, n: string)
    requires IsPlan(c, jobs, desired, plan) && n in jobs && Mine(c, jobs[n])
    requires forall id | id in desired.Keys + Labels(c, jobs) :: ResourceName(c, id) != n
    ensures n in Reconciled(c, jobs, plan, failing) && Reconciled(c, jobs, plan, failing)[n] == jobs[n]
  {
    UpsertsLeave(c, jobs, plan.current, plan.upserts, failing, n);
    DeletesAt(c, Upserts(c, jobs, plan.current, plan.upserts, failing), plan.deletes, failing, n);
  }

  /** Whether a sync is left alone: no create, no update. */
  predicate LeftAlone(c: Controller, current: map<string, Listed>, e: SyncEntry) {
    e.id in current && current[e.id].job.hash == c.hash(e)
  }

  lemma FirstIsElement(ids: seq<string>)
    ensures |ids| > 0 ==> ids[0] in ids
  {
  }

  /** Once exact, a further reconcile calls for no write at all. */
  lemma SecondReconcileWritesNothing(c: Controller, jobs: Jobs, desired: map<string, SyncEntry>, plan: Plan, failing: set<string>)
    requires Exact(c, jobs, desired) && Keyed(desired) && IsPlan(c, jobs, desired, plan)
    ensures (forall e | e in plan.upserts :: LeftAlone(c, plan.current, e)) && plan.deletes == []
    ensures Reconciled(c, jobs, plan, failing) == jobs
  {
    forall e | e in plan.upserts ensures LeftAlone(c, plan.current, e) {
      assert Settled(c, jobs, desired[e.id]);
      assert e.id in Labels(c, jobs);
    }
    FirstIsElement(plan.deletes);
    QuietUpserts(c, jobs, plan.current, plan.upserts, failing);
  }

  lemma {:induction false} QuietUpserts(c: Controller, jobs: Jobs, current: map<string, Listed>, order: seq<SyncEntry>, failing: set<string>)
    requires forall e | e in order :: LeftAlone(c, current, e)
    ensures Upserts(c, jobs, current, order, failing) == jobs
  {
    if order != [] {
      QuietUpserts(c, jobs, current, order[..|order| - 1], failing);
      assert order[|order| - 1] in order;
    }
  }

  // ----- ownership and schedules, label by label

  /** The white space that is trimmed, by code point: the ASCII controls 9 to 13 and the space,
      the Latin-1 ones, and the general spaces and separators. */
  lemma SpaceMeaning(ch: char)
    ensures IsSpace(ch) <==>
      var code := ch as int;
      || 9 <= code <= 13 || code in {32, 133, 160, 5760}
      || 8192 <= code <= 8202 || code in {8232, 8233, 8239, 8287, 12288}
  {
  }

  /** An entry whose schedule is empty, or spaces and line breaks only, is never desired. */
  lemma {:induction false} UnscheduledIsNotDesired(syncs: seq<SyncEntry>, id: string)
    requires forall e | e in syncs && e.id == id :: forall i | 0 <= i < |e.schedule| :: e.schedule[i] in " \t\n\r"
    ensures id !in Desired(syncs)
  {
    forall e | e in syncs && e.id == id ensures IsBlank(e.schedule) {
    }
    hide IsBlank;
    DesiredMeaning(syncs);
  }

  /** An entry with any other character in its schedule, such as a digit or a star, is. */
  lemma ScheduledIsDesired(syncs: seq<SyncEntry>, e: SyncEntry, i: nat)
    requires e in syncs && i < |e.schedule| && '!' <= e.schedule[i] <= '~'
    ensures e.id in Desired(syncs)
  {
    DesiredMeaning(syncs);
    assert !IsSpace(e.schedule[i]);
  }

  /** A CronJob the controllers do not manage, of the other kind, or without a sync id, is
      never rewritten, and is deleted only under the name of a listed sync that is no longer
      desired. */
  lemma ForeignIsNotRewritten(c: Controller, jobs: Jobs, desired: map<string, SyncEntry>, plan: Plan, failing: set<string>, n: string)
    requires IsPlan(c, jobs, desired, plan) && n in jobs
    requires !jobs[n].managed || jobs[n].reverse != c.reverse || jobs[n].syncId == ""
    ensures var after := Reconciled(c, jobs, plan, failing);
      && (n in after ==> after[n] == jobs[n])
      && (n !in after ==> exists id :: id in Labels(c, jobs) && id !in desired && ResourceName(c, id) == n)
  {
    UpsertsKeepForeign(c, jobs, plan.current, plan.upserts, failing, n);
    DeletesAt(c, Upserts(c, jobs, plan.current, plan.upserts, failing), plan.deletes, failing, n);
  }

  lemma {:induction false} UpsertsKeepForeign(c: Controller, jobs: Jobs, current: map<string, Listed>, order: seq<SyncEntry>,
                                              failing: set<string>, n: string)
    requires IsListing(c, jobs, current) && n in jobs && !Mine(c, jobs[n])
    ensures var after := Upserts(c, jobs, current, order, failing);
      n in after && after[n] == jobs[n]
  {
    if order != [] { UpsertsKeepForeign(c, jobs, current, order[..|order| - 1], failing, n); }
  }

  /** What is created for a sync is managed, of the controller's kind, and bears its id. */
  lemma CreatedIsLabelled(c: Controller, jobs: Jobs, current: map<string, Listed>, e: SyncEntry)
    requires e.id !in current && ResourceName(c, e.id) !in jobs
    ensures Upsert(c, jobs, current, e) == jobs[ResourceName(c, e.id) := CronJob(true, c.reverse, e.id, c.hash(e))]
  {
  }
}
