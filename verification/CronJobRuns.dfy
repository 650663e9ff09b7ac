/** Both CronJob controllers working on one cluster, in any order of runs. */
module CronJobRuns {

  import opened CronJobs

  /** One reconcile of the controller `c`: the order it visits its maps in and the ids its
      API calls fail for. */
  datatype Step = Step(c: Controller, desired: map<string, SyncEntry>, plan: Plan, failing: set<string>)

  predicate BothWellNamed(connector: Controller, reverse: Controller, jobs: Jobs) {
    !connector.reverse && reverse.reverse && WellNamed(connector, jobs) && WellNamed(reverse, jobs)
  }

  ghost predicate Enabled(s: Step, jobs: Jobs) {
    IsPlan(s.c, jobs, s.desired, s.plan) && Keyed(s.desired)
  }

  // ----- a reconcile touches its own CronJobs only

  /** At one name: foreign CronJobs are unchanged, own ones keep their labels, and what is
      new bears the controller's kind and name. */
  predicate TouchedOwn(c: Controller, jobs: Jobs, after: Jobs, n: string) {
    && (n in jobs ==> n in after)
    && (n in jobs && !Mine(c, jobs[n]) ==> after[n] == jobs[n])
    && (n in jobs && Mine(c, jobs[n]) ==> Mine(c, after[n]) && after[n].syncId == jobs[n].syncId)
    && (n in after && n !in jobs ==> after[n].reverse == c.reverse && n == ResourceName(c, after[n].syncId))
  }

  lemma UpsertTouchesOwn(c: Controller, jobs: Jobs, current: map<string, Listed>, before: Jobs, e: SyncEntry, n: string)
    requires IsListing(c, jobs, current) && TouchedOwn(c, jobs, before, n)
    ensures TouchedOwn(c, jobs, Upsert(c, before, current, e), n)
  {
  }

  lemma {:induction false} UpsertsTouchOwn(c: Controller, jobs: Jobs, current: map<string, Listed>, order: seq<SyncEntry>,
                                           failing: set<string>, n: string)
    requires IsListing(c, jobs, current)
    ensures TouchedOwn(c, jobs, Upserts(c, jobs, current, order, failing), n)
    decreases |order|
  {
    if order != [] {
      var last := |order| - 1;
      UpsertsTouchOwn(c, jobs, current, order[..last], failing, n);
      UpsertTouchesOwn(c, jobs, current, Upserts(c, jobs, current, order[..last], failing), order[last], n);
    }
  }

  /** Whatever the syncs, the order and the failures: CronJobs that are not the controller's
      own stay as they are, and what it adds bears its kind and its name. */
  lemma ReconcileTouchesOwn(s: Step, jobs: Jobs, n: string)
    requires Enabled(s, jobs) && WellNamed(s.c, jobs)
    ensures var after := Reconciled(s.c, jobs, s.plan, s.failing);
      && (n in jobs && !Mine(s.c, jobs[n]) ==> n in after && after[n] == jobs[n])
      && (n in after && (n !in jobs || after[n] != jobs[n]) ==>
            after[n].reverse == s.c.reverse && n == ResourceName(s.c, after[n].syncId))
      && (n in after && n in jobs ==> Mine(s.c, after[n]) == Mine(s.c, jobs[n]))
  {
    var upserted := Upserts(s.c, jobs, s.plan.current, s.plan.upserts, s.failing);
    UpsertsTouchOwn(s.c, jobs, s.plan.current, s.plan.upserts, s.failing, n);
    DeletesAt(s.c, upserted, s.plan.deletes, s.failing, n);
    forall id | id in s.plan.deletes ensures ResourceName(s.c, id) in jobs && Mine(s.c, jobs[ResourceName(s.c, id)]) {
      assert id in Labels(s.c, jobs);
    }
  }

  lemma StepKeepsNames(s: Step, jobs: Jobs, c: Controller)
    requires Enabled(s, jobs) && WellNamed(s.c, jobs) && WellNamed(c, jobs) && (c.reverse == s.c.reverse ==> c == s.c)
    ensures WellNamed(c, Reconciled(s.c, jobs, s.plan, s.failing))
  {
    var after := Reconciled(s.c, jobs, s.plan, s.failing);
    forall n | n in after && Mine(c, after[n]) ensures n == ResourceName(c, after[n].syncId) {
      ReconcileTouchesOwn(s, jobs, n);
    }
  }

  /** The part of the cluster a controller can see: the names with its prefix. */
  predicate Owns(c: Controller, n: string) { Prefix(c) <= n }

  predicate SameOwn(c: Controller, a: Jobs, b: Jobs) {
    && (forall n | n in a && Owns(c, n) :: n in b && a[n] == b[n])
    && (forall n | n in b && Owns(c, n) :: n in a)
  }

  lemma PrefixesApart(a: Controller, b: Controller, id: string)
    ensures Owns(a, ResourceName(a, id))
    ensures a.reverse != b.reverse ==> !Owns(b, ResourceName(a, id))
  {
    var n := ResourceName(a, id);
    assert n[0] == if a.reverse then 'r' else 's';
  }

  lemma {:induction false} UpsertsLeaveOther(c: Controller, other: Controller, jobs: Jobs, current: map<string, Listed>,
                                             order: seq<SyncEntry>, failing: set<string>)
    requires other.reverse != c.reverse
    ensures SameOwn(other, jobs, Upserts(c, jobs, current, order, failing))
  {
    if order != [] {
      UpsertsLeaveOther(c, other, jobs, current, order[..|order| - 1], failing);
      PrefixesApart(c, other, order[|order| - 1].id);
    }
  }

  lemma {:induction false} DeletesLeaveOther(c: Controller, other: Controller, jobs: Jobs, order: seq<string>, failing: set<string>)
    requires other.reverse != c.reverse
    ensures SameOwn(other, jobs, Deletes(c, jobs, order, failing))
  {
    if order != [] {
      DeletesLeaveOther(c, other, jobs, order[..|order| - 1], failing);
      PrefixesApart(c, other, order[|order| - 1]);
    }
  }

  /** A run of the other controller, on any cluster, changes nothing among a controller's
      names. */
  lemma OtherLeavesOwn(s: Step, jobs: Jobs, c: Controller)
    requires c.reverse != s.c.reverse
    ensures SameOwn(c, jobs, Reconciled(s.c, jobs, s.plan, s.failing))
  {
    var upserted := Upserts(s.c, jobs, s.plan.current, s.plan.upserts, s.failing);
    UpsertsLeaveOther(s.c, c, jobs, s.plan.current, s.plan.upserts, s.failing);
    DeletesLeaveOther(s.c, c, upserted, s.plan.deletes, s.failing);
  }

  // ----- what a controller does depends on its own names only

  lemma SameListing(c: Controller, a: Jobs, b: Jobs, current: map<string, Listed>)
    requires WellNamed(c, a) && WellNamed(c, b) && SameOwn(c, a, b) && IsListing(c, a, current)
    ensures Labels(c, a) == Labels(c, b) && IsListing(c, b, current)
  {
    SameLabels(c, a, b);
    forall id | id in current ensures current[id].name in b && b[current[id].name] == current[id].job {
      PrefixesApart(c, c, id);
    }
  }

  lemma SameLabels(c: Controller, a: Jobs, b: Jobs)
    requires WellNamed(c, a) && WellNamed(c, b) && SameOwn(c, a, b)
    ensures Labels(c, a) == Labels(c, b)
  {
    forall n | n in a && Mine(c, a[n]) ensures n in b && b[n] == a[n] { PrefixesApart(c, c, a[n].syncId); }
    forall n | n in b && Mine(c, b[n]) ensures n in a && b[n] == a[n] { PrefixesApart(c, c, b[n].syncId); }
  }

  lemma {:induction false} SameUpserts(c: Controller, a: Jobs, b: Jobs, current: map<string, Listed>, order: seq<SyncEntry>, failing: set<string>)
    requires SameOwn(c, a, b)
    ensures SameOwn(c, Upserts(c, a, current, order, failing), Upserts(c, b, current, order, failing))
  {
    if order != [] {
      SameUpserts(c, a, b, current, order[..|order| - 1], failing);
      PrefixesApart(c, c, order[|order| - 1].id);
    }
  }

  lemma {:induction false} SameDeletes(c: Controller, a: Jobs, b: Jobs, order: seq<string>, failing: set<string>)
    requires SameOwn(c, a, b)
    ensures SameOwn(c, Deletes(c, a, order, failing), Deletes(c, b, order, failing))
  {
    if order != [] {
      SameDeletes(c, a, b, order[..|order| - 1], failing);
    }
  }

  lemma SameStep(s: Step, a: Jobs, b: Jobs)
    requires Enabled(s, a) && WellNamed(s.c, a) && WellNamed(s.c, b) && SameOwn(s.c, a, b)
    ensures Enabled(s, b)
    ensures SameOwn(s.c, Reconciled(s.c, a, s.plan, s.failing), Reconciled(s.c, b, s.plan, s.failing))
  {
    SameListing(s.c, a, b, s.plan.current);
    SameUpserts(s.c, a, b, s.plan.current, s.plan.upserts, s.failing);
    SameDeletes(s.c, Upserts(s.c, a, s.plan.current, s.plan.upserts, s.failing),
                Upserts(s.c, b, s.plan.current, s.plan.upserts, s.failing), s.plan.deletes, s.failing);
  }

  // ----- runs

  ghost predicate IsRun(connector: Controller, reverse: Controller, jobs: Jobs, run: seq<Step>)
    decreases |run|
  {
    run == [] ||
    (&& (run[0].c == connector || run[0].c == reverse)
     && Enabled(run[0], jobs)
     && IsRun(connector, reverse, Reconciled(run[0].c, jobs, run[0].plan, run[0].failing), run[1..]))
  }

  ghost function After(connector: Controller, reverse: Controller, jobs: Jobs, run: seq<Step>): Jobs
    requires IsRun(connector, reverse, jobs, run)
    decreases |run|
  {
    if run == [] then jobs
    else After(connector, reverse, Reconciled(run[0].c, jobs, run[0].plan, run[0].failing), run[1..])
  }

  /** The runs of one controller only. */
  function Alone(reverse: bool, run: seq<Step>): seq<Step>
    decreases |run|
  {
    if run == [] then []
    else (if run[0].c.reverse == reverse then [run[0]] else []) + Alone(reverse, run[1..])
  }

  lemma RunStepKeepsNames(connector: Controller, reverse: Controller, jobs: Jobs, s: Step)
    requires BothWellNamed(connector, reverse, jobs) && Enabled(s, jobs) && (s.c == connector || s.c == reverse)
    ensures BothWellNamed(connector, reverse, Reconciled(s.c, jobs, s.plan, s.failing))
  {
    StepKeepsNames(s, jobs, connector);
    StepKeepsNames(s, jobs, reverse);
  }

  /** The controllers never disturb each other: for every interleaving of their runs, a
      controller's CronJobs end as if the other controller had never run. */
  lemma {:induction false} ControllersAreIndependent(connector: Controller, reverse: Controller, c: Controller, a: Jobs, b: Jobs, run: seq<Step>)
    requires BothWellNamed(connector, reverse, a) && BothWellNamed(connector, reverse, b)
    requires (c == connector || c == reverse) && SameOwn(c, a, b)
    requires IsRun(connector, reverse, a, run)
    ensures IsRun(connector, reverse, b, Alone(c.reverse, run))
    ensures SameOwn(c, After(connector, reverse, a, run), After(connector, reverse, b, Alone(c.reverse, run)))
    decreases |run|
  {
    if run != [] {
      var s := run[0];
      var a' := Reconciled(s.c, a, s.plan, s.failing);
      RunStepKeepsNames(connector, reverse, a, s);
      if s.c.reverse == c.reverse {
        SameStep(s, a, b);
        RunStepKeepsNames(connector, reverse, b, s);
        ControllersAreIndependent(connector, reverse, c, a', Reconciled(s.c, b, s.plan, s.failing), run[1..]);
        assert Alone(c.reverse, run)[1..] == Alone(c.reverse, run[1..]);
      } else {
        OtherLeavesOwn(s, a, c);
        ControllersAreIndependent(connector, reverse, c, a', b, run[1..]);
        assert Alone(c.reverse, run) == Alone(c.reverse, run[1..]);
      }
    }
  }

  lemma SameOwnExact(c: Controller, a: Jobs, b: Jobs, desired: map<string, SyncEntry>)
    requires WellNamed(c, a) && WellNamed(c, b) && SameOwn(c, a, b) && Exact(c, a, desired) && Keyed(desired)
    ensures Exact(c, b, desired)
  {
    forall n | n in b && Mine(c, b[n]) ensures InPlace(c, b, desired, n) { PrefixesApart(c, c, b[n].syncId); }
    forall id | id in desired ensures Settled(c, b, desired[id]) {
      assert Settled(c, a, desired[id]);
      PrefixesApart(c, c, id);
    }
  }

  /** Once exact, a controller's CronJobs stay exact through every run of the other one and
      every further run of its own over the same syncs, even when API calls fail. */
  lemma {:induction false} ExactIsStable(connector: Controller, reverse: Controller, c: Controller, jobs: Jobs,
                                         desired: map<string, SyncEntry>, run: seq<Step>)
    requires BothWellNamed(connector, reverse, jobs) && (c == connector || c == reverse)
    requires Exact(c, jobs, desired) && Keyed(desired) && IsRun(connector, reverse, jobs, run)
    requires forall i | 0 <= i < |run| :: run[i].c == c ==> run[i].desired == desired
    ensures Exact(c, After(connector, reverse, jobs, run), desired)
    decreases |run|
  {
    if run != [] {
      var s := run[0];
      var next := Reconciled(s.c, jobs, s.plan, s.failing);
      RunStepKeepsNames(connector, reverse, jobs, s);
      if s.c == c {
        SecondReconcileWritesNothing(c, jobs, desired, s.plan, s.failing);
      } else {
        OtherLeavesOwn(s, jobs, c);
        SameOwnExact(c, jobs, next, desired);
      }
      ExactIsStable(connector, reverse, c, next, desired, run[1..]);
    }
  }
}
