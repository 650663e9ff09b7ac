/** The per-sync lease: any number of pods compete for one version-checked object through
    GET, POST, PUT and DELETE. Every API call is its own step, each pod has its own clock,
    answers may be lost, writes may land after the client gave up on them, and pods may crash
    with requests still in flight. */
module Lease {
  import opened Common

  type Pod = string

  const LEASE_DURATION_SECONDS: int := 60

  /** renewTime is None when the stored text is missing or does not parse. */
  datatype LeaseObject = LeaseObject(holder: Pod, renewTime: Option<int>, durationSeconds: int, version: nat)

  function Duration(seconds: int): int {
    (if seconds == 0 then LEASE_DURATION_SECONDS else seconds) * SECOND
  }

  predicate IsStale(l: LeaseObject, now: int) {
    l.renewTime.None? || now > l.renewTime.value + Duration(l.durationSeconds)
  }

  /** Lease times are stored with six fractional digits. */
  function MicroTime(now: int): int {
    now - now % 1000
  }

  datatype Phase =
    | Idle
    | AcquireGet(stamp: int)
    | AcquireDecide(stamp: int, seen: LeaseObject)
    | AcquirePost(stamp: int)
    | AcquirePut(stamp: int, seen: LeaseObject)
    | RenewStamp(seen: LeaseObject)
    | RenewPut(stamp: int, seen: LeaseObject)

  /** Acquiring until Acquire reports success, Holding until the lease is reported lost,
      released or the pod crashes, then Ended. */
  datatype Mode = Acquiring | Holding | Ended

  /** `stray` holds the writes the client has given up on and which may still land. */
  datatype PodState = PodState(mode: Mode, phase: Phase, deleting: bool, clock: int, stray: seq<Phase>)

  datatype State = State(stored: Option<LeaseObject>, nextVersion: nat, pods: map<Pod, PodState>)

  datatype Step =
    | Spawn(p: Pod, clock: int)
    | Tick(p: Pod, elapsed: nat)
    | StartAcquire(p: Pod)
    | AnswerAcquireGet(p: Pod)
    | DecideAcquire(p: Pod)
    | AnswerAcquirePost(p: Pod, reported: bool)
    | AnswerAcquirePut(p: Pod, reported: bool)
    | StartRenew(p: Pod)
    | StampRenew(p: Pod)
    | AnswerRenewPut(p: Pod, reported: bool)
    | LoseRequest(p: Pod)
    | AbandonWrite(p: Pod)
    | LandStray(p: Pod, k: nat)
    | Release(p: Pod)
    | LandDelete(p: Pod)
    | LoseDelete(p: Pod)
    | Crash(p: Pod)

  predicate Enabled(s: State, step: Step) {
    if step.Spawn? then step.p !in s.pods
    else
      step.p in s.pods &&
      var pod := s.pods[step.p];
      match step
      case Spawn(_, _) => true
      case Tick(_, _) => true
      case StartAcquire(_) => pod.mode.Acquiring? && pod.phase.Idle?
      case AnswerAcquireGet(_) => pod.phase.AcquireGet?
      case DecideAcquire(_) => pod.phase.AcquireDecide?
      case AnswerAcquirePost(_, _) => pod.phase.AcquirePost?
      case AnswerAcquirePut(_, _) => pod.phase.AcquirePut?
      case StartRenew(_) => !pod.mode.Acquiring? && pod.phase.Idle?
      case StampRenew(_) => pod.phase.RenewStamp?
      case AnswerRenewPut(_, _) => pod.phase.RenewPut?
      case LoseRequest(_) => !pod.phase.Idle?
      case AbandonWrite(_) => pod.phase.AcquirePost? || pod.phase.AcquirePut? || pod.phase.RenewPut?
      case LandStray(_, k) => k < |pod.stray|
      case Release(_) => pod.mode.Holding?
      case LandDelete(_) => pod.deleting
      case LoseDelete(_) => pod.deleting
      case Crash(_) => true
  }

  /** Acquire reported success: the pod runs, unless it crashed meanwhile. */
  function Acquired(pod: PodState, reported: bool): PodState {
    pod.(phase := Idle, mode := if reported && pod.mode.Acquiring? then Holding else pod.mode)
  }

  /** Renew reported that the lease is gone. */
  function Lost(pod: PodState): PodState {
    pod.(phase := Idle, mode := if pod.mode.Holding? then Ended else pod.mode)
  }

  function SetPod(s: State, p: Pod, pod: PodState): State {
    s.(pods := s.pods[p := pod])
  }

  function Write(s: State, p: Pod, stamp: int, duration: int, pod: PodState): State {
    State(Some(LeaseObject(p, Some(stamp), duration, s.nextVersion)), s.nextVersion + 1, s.pods[p := pod])
  }

  /** A write that no client waits for any more reaches the API server. */
  function Land(s: State, p: Pod, request: Phase, pod: PodState): State {
    match request
    case AcquirePost(stamp) =>
      if s.stored.None? then Write(s, p, stamp, LEASE_DURATION_SECONDS, pod) else SetPod(s, p, pod)
    case AcquirePut(stamp, seen) =>
      if s.stored.Some? && s.stored.value.version == seen.version
      then Write(s, p, stamp, LEASE_DURATION_SECONDS, pod) else SetPod(s, p, pod)
    case RenewPut(stamp, seen) =>
      if s.stored.Some? && s.stored.value.version == seen.version
      then Write(s, p, stamp, seen.durationSeconds, pod) else SetPod(s, p, pod)
    case _ => SetPod(s, p, pod)
  }

  function Apply(s: State, step: Step): State
    requires Enabled(s, step)
  {
    if step.Spawn? then SetPod(s, step.p, PodState(Acquiring, Idle, false, step.clock, []))
    else
      var p, pod := step.p, s.pods[step.p];
      match step
      case Spawn(_, _) => s
      case Tick(_, elapsed) => SetPod(s, p, pod.(clock := pod.clock + elapsed))
      case StartAcquire(_) => SetPod(s, p, pod.(phase := AcquireGet(MicroTime(pod.clock))))
      case AnswerAcquireGet(_) =>
        SetPod(s, p, pod.(phase := if s.stored.None? then AcquirePost(pod.phase.stamp)
                                   else AcquireDecide(pod.phase.stamp, s.stored.value)))
      case DecideAcquire(_) =>
        SetPod(s, p, pod.(phase := if IsStale(pod.phase.seen, pod.clock)
                                   then AcquirePut(pod.phase.stamp, pod.phase.seen) else Idle))
      case AnswerAcquirePost(_, reported) =>
        if s.stored.None? then Write(s, p, pod.phase.stamp, LEASE_DURATION_SECONDS, Acquired(pod, reported))
        else SetPod(s, p, pod.(phase := Idle))
      case AnswerAcquirePut(_, reported) =>
        // the client maps a 404 answer to "no error", so Acquire takes it for success
        if s.stored.None? then SetPod(s, p, Acquired(pod, reported))
        else if s.stored.value.version == pod.phase.seen.version then
          Write(s, p, pod.phase.stamp, LEASE_DURATION_SECONDS, Acquired(pod, reported))
        else SetPod(s, p, pod.(phase := Idle))
      case StartRenew(_) =>
        if s.stored.None? || s.stored.value.holder != p then SetPod(s, p, Lost(pod))
        else SetPod(s, p, pod.(phase := RenewStamp(s.stored.value)))
      case StampRenew(_) => SetPod(s, p, pod.(phase := RenewPut(MicroTime(pod.clock), pod.phase.seen)))
      case AnswerRenewPut(_, reported) =>
        if s.stored.None? then SetPod(s, p, pod.(phase := Idle))
        else if s.stored.value.version == pod.phase.seen.version then
          Write(s, p, pod.phase.stamp, pod.phase.seen.durationSeconds, pod.(phase := Idle))
        else if reported then SetPod(s, p, Lost(pod))
        else SetPod(s, p, pod.(phase := Idle))
      case LoseRequest(_) => SetPod(s, p, pod.(phase := Idle))
      case AbandonWrite(_) => SetPod(s, p, pod.(phase := Idle, stray := pod.stray + [pod.phase]))
      case LandStray(_, k) => Land(s, p, pod.stray[k], pod.(stray := pod.stray[..k] + pod.stray[k + 1..]))
      case Release(_) => SetPod(s, p, pod.(mode := Ended, deleting := true))
      case LandDelete(_) => SetPod(s, p, pod.(deleting := false)).(stored := None)
      case LoseDelete(_) => SetPod(s, p, pod.(deleting := false))
      case Crash(_) => SetPod(s, p, pod.(mode := Ended))
  }

  // ----- the premises

  /** The pod relies on its lease: it runs under it, or is about to delete it by name. */
  predicate Relies(s: State, p: Pod) {
    p in s.pods && (s.pods[p].mode.Holding? || s.pods[p].deleting)
  }

  ghost predicate Holds(s: State, p: Pod) {
    p in s.pods && s.pods[p].mode.Holding?
  }

  /** No pod's clock is past the expiry of a lease its holder still relies on. */
  ghost predicate NoReliedLeaseExpired(s: State) {
    s.stored.Some? && Relies(s, s.stored.value.holder) ==>
      forall q | q in s.pods :: !IsStale(s.stored.value, s.pods[q].clock)
  }

  /** The pod is inside Acquire, between a GET that found the lease and its PUT. */
  predicate BetweenGetAndPut(s: State, q: Pod) {
    && q in s.pods && s.pods[q].mode.Acquiring?
    && (s.pods[q].phase.AcquireDecide? || s.pods[q].phase.AcquirePut?)
  }

  ghost predicate NoDeleteBetweenGetAndPut(s: State, step: Step) {
    step.LandDelete? ==> forall q :: !BetweenGetAndPut(s, q)
  }

  // ----- runs

  /** The state after a run, or None if some step was not possible. */
  ghost function After(s: State, run: seq<Step>): Option<State> {
    if run == [] then Some(s)
    else
      var n := |run| - 1;
      match After(s, run[..n])
      case None => None
      case Some(t) => if Enabled(t, run[n]) then Some(Apply(t, run[n])) else None
  }

  ghost predicate NeverExpires(s: State, run: seq<Step>) {
    && (After(s, run).Some? ==> NoReliedLeaseExpired(After(s, run).value))
    && (run != [] ==> NeverExpires(s, run[..|run| - 1]))
  }

  /** The weaker premise: it leaves out holders that have released the lease and wait for
      their DELETE. */
  ghost predicate NoRunningLeaseExpired(s: State) {
    s.stored.Some? && Holds(s, s.stored.value.holder) ==>
      forall q | q in s.pods :: !IsStale(s.stored.value, s.pods[q].clock)
  }

  ghost predicate RunningNeverExpires(s: State, run: seq<Step>) {
    && (After(s, run).Some? ==> NoRunningLeaseExpired(After(s, run).value))
    && (run != [] ==> RunningNeverExpires(s, run[..|run| - 1]))
  }

  ghost predicate DeletesApart(s: State, run: seq<Step>) {
    run != [] ==>
      var n := |run| - 1;
      && DeletesApart(s, run[..n])
      && (After(s, run[..n]).Some? ==> NoDeleteBetweenGetAndPut(After(s, run[..n]).value, run[n]))
  }

  /** No pod has started; the object may be absent or left over from anyone. */
  predicate Initial(s: State) {
    s.pods == map[] && (s.stored.Some? ==> s.stored.value.version < s.nextVersion)
  }

  // ----- the invariant

  ghost predicate SnapshotOk(s: State, seen: LeaseObject) {
    && seen.version < s.nextVersion
    && (s.stored.Some? && s.stored.value.version == seen.version ==> s.stored.value == seen)
  }

  ghost predicate RequestOk(s: State, p: Pod, clock: int, request: Phase) {
    match request
    case AcquireDecide(_, seen) => SnapshotOk(s, seen)
    case AcquirePut(_, seen) => SnapshotOk(s, seen) && IsStale(seen, clock)
    case RenewStamp(seen) => SnapshotOk(s, seen) && seen.holder == p
    case RenewPut(_, seen) => SnapshotOk(s, seen) && seen.holder == p
    case _ => true
  }

  ghost predicate PhaseOk(s: State, p: Pod, pod: PodState) {
    && RequestOk(s, p, pod.clock, pod.phase)
    && forall k | 0 <= k < |pod.stray| :: RequestOk(s, p, pod.clock, pod.stray[k])
  }

  ghost predicate Inv(s: State) {
    && (s.stored.Some? ==> s.stored.value.version < s.nextVersion)
    && (forall p | Relies(s, p) :: s.stored.Some? && s.stored.value.holder == p)
    && (forall p | p in s.pods :: PhaseOk(s, p, s.pods[p]) && (s.pods[p].deleting ==> s.pods[p].mode.Ended?))
    && (forall p | BetweenGetAndPut(s, p) :: s.stored.Some?)
  }

  /** Overwriting a lease that looked stale takes it from no one who relies on it. */
  lemma TakeoverIsSafe(s: State, q: Pod, request: Phase)
    requires Inv(s) && NoReliedLeaseExpired(s)
    requires q in s.pods && request.AcquirePut? && RequestOk(s, q, s.pods[q].clock, request)
    requires s.stored.Some? && s.stored.value.version == request.seen.version
    ensures forall p :: !Relies(s, p)
  {
  }

  /** A request stays in order when time passes and when anything is written. */
  lemma RequestStays(s: State, s': State, p: Pod, clock: int, clock': int, request: Phase)
    requires RequestOk(s, p, clock, request) && clock <= clock' && s.nextVersion <= s'.nextVersion
    requires s'.stored == s.stored || s'.stored.None? || s'.stored.value.version == s.nextVersion
    ensures RequestOk(s', p, clock', request)
  {
  }

  lemma StoredMoves(s: State, step: Step)
    requires Enabled(s, step)
    ensures var s' := Apply(s, step);
      && s.nextVersion <= s'.nextVersion
      && (s'.stored == s.stored || s'.stored.None? || s'.stored.value.version == s.nextVersion)
      && step.p in s'.pods
      && (forall p | p in s.pods && p != step.p :: p in s'.pods && s'.pods[p] == s.pods[p])
      && (forall p | p in s'.pods && p != step.p :: p in s.pods)
      && (step.p in s.pods ==> s.pods[step.p].clock <= s'.pods[step.p].clock)
  {
  }

  lemma StrayMoves(s: State, step: Step)
    requires Enabled(s, step) && step.p in s.pods
    ensures forall request | request in Apply(s, step).pods[step.p].stray ::
      request in s.pods[step.p].stray || (step.AbandonWrite? && request == s.pods[step.p].phase)
  {
  }

  lemma OwnRequestStays(s: State, step: Step)
    requires Inv(s) && Enabled(s, step)
    ensures var s' := Apply(s, step);
      && step.p in s'.pods && RequestOk(s', step.p, s'.pods[step.p].clock, s'.pods[step.p].phase)
      && (s'.pods[step.p].deleting ==> s'.pods[step.p].mode.Ended?)
  {
    if step.p in s.pods {
      assert PhaseOk(s, step.p, s.pods[step.p]);
      assert RequestOk(s, step.p, s.pods[step.p].clock, s.pods[step.p].phase);
    }
  }

  lemma OwnPhaseStays(s: State, step: Step)
    requires Inv(s) && Enabled(s, step)
    ensures var s' := Apply(s, step);
      && step.p in s'.pods && PhaseOk(s', step.p, s'.pods[step.p])
      && (s'.pods[step.p].deleting ==> s'.pods[step.p].mode.Ended?)
  {
    hide Apply, RequestOk;
    StoredMoves(s, step);
    OwnRequestStays(s, step);
    var s' := Apply(s, step);
    if step.p in s.pods {
      var pod, pod' := s.pods[step.p], s'.pods[step.p];
      assert PhaseOk(s, step.p, pod);
      StrayMoves(s, step);
      forall k | 0 <= k < |pod'.stray| ensures RequestOk(s', step.p, pod'.clock, pod'.stray[k]) {
        assert pod'.stray[k] in pod'.stray;
        assert RequestOk(s, step.p, pod.clock, pod'.stray[k]);
        RequestStays(s, s', step.p, pod.clock, pod'.clock, pod'.stray[k]);
      }
    } else {
      SpawnedHasNoStray(s, step);
    }
  }

  lemma SpawnedHasNoStray(s: State, step: Step)
    requires Enabled(s, step) && step.p !in s.pods
    ensures Apply(s, step).pods[step.p].stray == []
  {
  }

  lemma OtherPhaseStays(s: State, step: Step, p: Pod)
    requires Inv(s) && Enabled(s, step) && p in s.pods && p != step.p
    ensures var s' := Apply(s, step);
      p in s'.pods && s'.pods[p] == s.pods[p] && PhaseOk(s', p, s'.pods[p])
  {
    hide Apply, RequestOk;
    StoredMoves(s, step);
    var s', pod := Apply(s, step), s.pods[p];
    assert PhaseOk(s, p, pod);
    RequestStays(s, s', p, pod.clock, pod.clock, pod.phase);
    forall k | 0 <= k < |pod.stray| ensures RequestOk(s', p, pod.clock, pod.stray[k]) {
      RequestStays(s, s', p, pod.clock, pod.clock, pod.stray[k]);
    }
  }

  lemma StepKeepsInv(s: State, step: Step)
    requires Inv(s) && Enabled(s, step)
    requires NoReliedLeaseExpired(s) && NoDeleteBetweenGetAndPut(s, step)
    ensures Inv(Apply(s, step))
  {
    var s' := Apply(s, step);
    forall p | p in s'.pods ensures PhaseOk(s', p, s'.pods[p]) && (s'.pods[p].deleting ==> s'.pods[p].mode.Ended?) {
      if p == step.p { OwnPhaseStays(s, step); } else { OtherPhaseStays(s, step, p); }
    }
    forall p | Relies(s', p) ensures s'.stored.Some? && s'.stored.value.holder == p {
      StillRelied(s, step, p);
    }
    forall p | BetweenGetAndPut(s', p) ensures s'.stored.Some? {
      assert BetweenGetAndPut(s, p) || p == step.p;
    }
  }

  lemma StillRelied(s: State, step: Step, p: Pod)
    requires Inv(s) && Enabled(s, step)
    requires NoReliedLeaseExpired(s) && NoDeleteBetweenGetAndPut(s, step)
    requires Relies(Apply(s, step), p)
    ensures Apply(s, step).stored.Some? && Apply(s, step).stored.value.holder == p
  {
    if !step.Spawn? {
      var pod := s.pods[step.p];
      assert PhaseOk(s, step.p, pod);
      var request := if step.LandStray? then pod.stray[step.k] else pod.phase;
      if request.AcquirePut? && s.stored.Some? && s.stored.value.version == request.seen.version {
        TakeoverIsSafe(s, step.p, request);
      }
      assert step.AnswerAcquirePut? && s.pods[step.p].mode.Acquiring? ==> BetweenGetAndPut(s, step.p);
      if Relies(s, step.p) { assert s.stored.value.holder == step.p; }
    }
    assert p != step.p ==> Relies(s, p);
  }

  lemma {:induction false} RunKeepsInv(s: State, run: seq<Step>)
    requires Initial(s) && After(s, run).Some? && NeverExpires(s, run) && DeletesApart(s, run)
    ensures Inv(After(s, run).value)
  {
    if run != [] {
      RunKeepsInv(s, run[..|run| - 1]);
      StepKeepsInv(After(s, run[..|run| - 1]).value, run[|run| - 1]);
    }
  }

  /** Mutual exclusion over every interleaving of any number of pods: at most one pod is
      between a successful Acquire and its loss, release or crash, and the stored holder
      is that pod. */
  lemma MutualExclusion(s: State, run: seq<Step>, p: Pod)
    requires Initial(s) && After(s, run).Some? && NeverExpires(s, run) && DeletesApart(s, run)
    requires Holds(After(s, run).value, p)
    ensures var t := After(s, run).value;
      && t.stored.Some? && t.stored.value.holder == p
      && forall q | Holds(t, q) :: q == p
  {
    RunKeepsInv(s, run);
    var t := After(s, run).value;
    assert Relies(t, p);
    forall q | Holds(t, q) ensures q == p {
      assert Relies(t, q);
    }
  }

  // ----- neither premise can be dropped

  lemma Extend(s: State, run: seq<Step>, t: State, step: Step) returns (run': seq<Step>, t': State)
    requires After(s, run) == Some(t) && Enabled(t, step)
    ensures run' == run + [step] && t' == Apply(t, step) && After(s, run') == Some(t')
    ensures NeverExpires(s, run) && NoReliedLeaseExpired(t') ==> NeverExpires(s, run')
    ensures RunningNeverExpires(s, run) && NoRunningLeaseExpired(t') ==> RunningNeverExpires(s, run')
    ensures DeletesApart(s, run) && NoDeleteBetweenGetAndPut(t, step) ==> DeletesApart(s, run')
  {
    run', t' := run + [step], Apply(t, step);
    assert run'[..|run' | - 1] == run;
  }

  lemma StartOfRun(s: State)
    requires Initial(s)
    ensures After(s, []) == Some(s) && NeverExpires(s, []) && RunningNeverExpires(s, []) && DeletesApart(s, [])
  {
  }

  lemma Arrive(s: State, run: seq<Step>, t: State, p: Pod, now: int) returns (run': seq<Step>, t': State)
    requires After(s, run) == Some(t) && p !in t.pods
    ensures After(s, run') == Some(t')
    ensures t' == SetPod(t, p, PodState(Acquiring, AcquireGet(MicroTime(now)), false, now, []))
    ensures NeverExpires(s, run) && NoReliedLeaseExpired(t') ==> NeverExpires(s, run')
    ensures RunningNeverExpires(s, run) && NoRunningLeaseExpired(t') ==> RunningNeverExpires(s, run')
    ensures DeletesApart(s, run) ==> DeletesApart(s, run')
  {
    hide After, NeverExpires, RunningNeverExpires, DeletesApart;
    run', t' := Extend(s, run, t, Spawn(p, now));
    var t1 := t';
    run', t' := Extend(s, run', t', StartAcquire(p));
    SameExpiry(t', t1);
  }

  /** A new pod starts Acquire and gets as far as its write. */
  lemma Join(s: State, run: seq<Step>, t: State, p: Pod, now: int) returns (run': seq<Step>, t': State)
    requires After(s, run) == Some(t) && p !in t.pods
    requires t.stored.Some? ==> IsStale(t.stored.value, now)
    ensures After(s, run') == Some(t')
    ensures t' == SetPod(t, p, PodState(Acquiring, if t.stored.None? then AcquirePost(MicroTime(now))
                                                   else AcquirePut(MicroTime(now), t.stored.value), false, now, []))
    ensures NeverExpires(s, run) && NoReliedLeaseExpired(t') ==> NeverExpires(s, run')
    ensures RunningNeverExpires(s, run) && NoRunningLeaseExpired(t') ==> RunningNeverExpires(s, run')
    ensures DeletesApart(s, run) ==> DeletesApart(s, run')
  {
    hide After, NeverExpires, RunningNeverExpires, DeletesApart;
    run', t' := Arrive(s, run, t, p, now);
    var t1 := t';
    run', t' := Extend(s, run', t', AnswerAcquireGet(p));
    var t2 := t';
    if t.stored.Some? {
      run', t' := Extend(s, run', t', DecideAcquire(p));
    }
    SameExpiry(t', t1);
    SameExpiry(t', t2);
  }

  lemma SameExpiry(t: State, u: State)
    requires t.stored == u.stored && t.pods.Keys == u.pods.Keys
    requires forall q | q in t.pods ::
               && t.pods[q].clock == u.pods[q].clock
               && t.pods[q].mode == u.pods[q].mode && t.pods[q].deleting == u.pods[q].deleting
    ensures NoReliedLeaseExpired(t) ==> NoReliedLeaseExpired(u)
    ensures NoRunningLeaseExpired(t) ==> NoRunningLeaseExpired(u)
  {
  }

  /** A holder whose lease ages past its duration is joined by a second one. */
  lemma ExpiryBreaksExclusion(p: Pod, q: Pod) returns (s: State, run: seq<Step>)
    requires p != q
    ensures Initial(s) && After(s, run).Some? && DeletesApart(s, run)
    ensures Holds(After(s, run).value, p) && Holds(After(s, run).value, q)
  {
    s, run := State(None, 0, map[]), [];
    StartOfRun(s);
    hide After, NeverExpires, RunningNeverExpires, DeletesApart;
    var t := s;
    run, t := Join(s, run, t, p, 0);
    run, t := Extend(s, run, t, AnswerAcquirePost(p, true));
    run, t := Join(s, run, t, q, 61 * SECOND);
    run, t := Extend(s, run, t, AnswerAcquirePut(q, true));
  }

  /** Deleting by name: a pod has released its lease and its DELETE is still under way when
      the lease expires and is taken over. The DELETE then removes the lease of the new
      holder, outside any GET and PUT, and the next pod creates it anew. So the premise on
      expiry must cover a released lease until its DELETE has landed. */
  lemma LateDeleteBreaksExclusion(p: Pod, q: Pod, r: Pod) returns (s: State, run: seq<Step>)
    requires p != q && q != r && p != r
    ensures Initial(s) && After(s, run).Some? && RunningNeverExpires(s, run) && DeletesApart(s, run)
    ensures Holds(After(s, run).value, p) && Holds(After(s, run).value, q)
  {
    hide After, NeverExpires, RunningNeverExpires, DeletesApart;
    var t;
    s, run, t := ReleasedLeaseTaken(p, r);
    run, t := Extend(s, run, t, LandDelete(r));
    run, t := Join(s, run, t, q, 61 * SECOND);
    run, t := Extend(s, run, t, AnswerAcquirePost(q, true));
  }

  lemma ReleasedLeaseTaken(p: Pod, r: Pod) returns (s: State, run: seq<Step>, t: State)
    requires p != r
    ensures Initial(s) && After(s, run) == Some(t) && RunningNeverExpires(s, run) && DeletesApart(s, run)
    ensures t.pods.Keys == {p, r} && t.pods[r].mode.Ended? && t.pods[r].phase.Idle? && t.pods[r].deleting
    ensures Holds(t, p) && t.pods[p].phase.Idle? && t.stored.Some?
    ensures t.pods[p].clock == 61 * SECOND && t.pods[r].clock == 0
  {
    hide After, NeverExpires, RunningNeverExpires, DeletesApart;
    s, run, t := ReleasedLease(r);
    run, t := Join(s, run, t, p, 61 * SECOND);
    run, t := Extend(s, run, t, AnswerAcquirePut(p, true));
  }

  lemma ReleasedLease(r: Pod) returns (s: State, run: seq<Step>, t: State)
    ensures Initial(s) && After(s, run) == Some(t) && RunningNeverExpires(s, run) && DeletesApart(s, run)
    ensures t == State(Some(LeaseObject(r, Some(0), LEASE_DURATION_SECONDS, 0)), 1, map[r := PodState(Ended, Idle, true, 0, [])])
  {
    s, run := State(None, 0, map[]), [];
    StartOfRun(s);
    hide After, NeverExpires, RunningNeverExpires, DeletesApart;
    run, t := Join(s, run, s, r, 0);
    run, t := Extend(s, run, t, AnswerAcquirePost(r, true));
    run, t := Extend(s, run, t, Release(r));
  }

  /** A DELETE that lands between another pod's GET and PUT turns that PUT into a false
      success, and the next pod creates the lease anew. */
  lemma DeleteBreaksExclusion(p: Pod, q: Pod, r: Pod) returns (s: State, run: seq<Step>)
    requires p != q && q != r && p != r
    ensures Initial(s) && After(s, run).Some? && NeverExpires(s, run)
    ensures Holds(After(s, run).value, p) && Holds(After(s, run).value, q)
  {
    hide After, NeverExpires, RunningNeverExpires, DeletesApart;
    var t;
    s, run, t := FalseSuccess(p, r);
    run, t := Join(s, run, t, q, 100 * SECOND);
    run, t := Extend(s, run, t, AnswerAcquirePost(q, true));
  }

  lemma FalseSuccess(p: Pod, r: Pod) returns (s: State, run: seq<Step>, t: State)
    requires p != r
    ensures Initial(s) && After(s, run) == Some(t) && NeverExpires(s, run)
    ensures Holds(t, p) && t.stored.None? && t.pods.Keys == {p, r}
    ensures t.pods[p].clock == t.pods[r].clock == 100 * SECOND
  {
    hide After, NeverExpires, RunningNeverExpires, DeletesApart;
    s, run, t := ReleasedMeanwhile(p, r);
    run, t := Extend(s, run, t, LandDelete(r));
    run, t := Extend(s, run, t, AnswerAcquirePut(p, true));
  }

  lemma ReleasedMeanwhile(p: Pod, r: Pod) returns (s: State, run: seq<Step>, t: State)
    requires p != r
    ensures Initial(s) && After(s, run) == Some(t) && NeverExpires(s, run) && t.pods.Keys == {p, r}
    ensures t.pods[p].mode.Acquiring? && t.pods[p].phase.AcquirePut? && t.pods[r].mode.Ended? && t.pods[r].deleting
    ensures t.pods[p].clock == t.pods[r].clock == 100 * SECOND
  {
    var now := 100 * SECOND;
    s, run := State(Some(LeaseObject("gone", Some(0), 60, 0)), 1, map[]), [];
    StartOfRun(s);
    hide After, NeverExpires, RunningNeverExpires, DeletesApart;
    run, t := Join(s, run, s, p, now);
    run, t := Join(s, run, t, r, now);
    run, t := Extend(s, run, t, AnswerAcquirePut(r, true));
    run, t := Extend(s, run, t, Release(r));
  }

  // ----- what a successful call writes

  /** The time to which a lease stamped at `clock` is good, on every clock. */
  lemma StampedLeaseLasts(holder: Pod, clock: int, seconds: int, version: nat, now: int)
    ensures !IsStale(LeaseObject(holder, Some(MicroTime(clock)), seconds, version), now)
       <==> now <= clock - clock % 1000 + (if seconds == 0 then 60 else seconds) * 1_000_000_000
  {
  }

  /** Renewing renews: for a pod that is done acquiring and idle while the stored lease is its
      own, the calls of Renew go through one after the other and leave the lease with its
      holder and duration, stamped with the pod's clock to the microsecond. */
  lemma RenewExtends(s: State, p: Pod)
    requires p in s.pods && s.pods[p].phase.Idle? && !s.pods[p].mode.Acquiring?
    requires s.stored.Some? && s.stored.value.holder == p
    ensures var s1 := Apply(s, StartRenew(p));
      Enabled(s1, StampRenew(p)) && Enabled(Apply(s1, StampRenew(p)), AnswerRenewPut(p, true))
    ensures var s3 := Apply(Apply(Apply(s, StartRenew(p)), StampRenew(p)), AnswerRenewPut(p, true));
      && s3.stored == Some(LeaseObject(p, Some(s.pods[p].clock - s.pods[p].clock % 1000), s.stored.value.durationSeconds, s.nextVersion))
      && s3.pods == s.pods
  {
    var s1 := Apply(s, StartRenew(p));
    var s2 := Apply(s1, StampRenew(p));
    var s3 := Apply(s2, AnswerRenewPut(p, true));
    assert s3.pods[p] == s.pods[p];
  }

  /** So no clock up to the new expiry finds it stale. */
  lemma RenewedLeaseIsFresh(s: State, p: Pod, now: int)
    requires p in s.pods && s.pods[p].phase.Idle? && !s.pods[p].mode.Acquiring?
    requires s.stored.Some? && s.stored.value.holder == p && s.stored.value.durationSeconds == 60
    requires now <= s.pods[p].clock - s.pods[p].clock % 1000 + 60_000_000_000
    ensures !IsStale(Apply(Apply(Apply(s, StartRenew(p)), StampRenew(p)), AnswerRenewPut(p, true)).stored.value, now)
  {
    RenewExtends(s, p);
    StampedLeaseLasts(p, s.pods[p].clock, 60, s.nextVersion, now);
  }

  /** A pod that finds no lease, or a stale one, and is not disturbed acquires it: it runs,
      and the stored lease is its own for sixty seconds from its clock. */
  lemma UndisturbedAcquireSucceeds(s: State, p: Pod)
    requires p in s.pods && s.pods[p].phase.Idle? && s.pods[p].mode.Acquiring?
    requires s.stored.Some? ==> IsStale(s.stored.value, s.pods[p].clock)
    ensures Enabled(Apply(s, StartAcquire(p)), AnswerAcquireGet(p))
    ensures var s2 := Apply(Apply(s, StartAcquire(p)), AnswerAcquireGet(p));
      && (s.stored.None? ==> Enabled(s2, AnswerAcquirePost(p, true)))
      && (s.stored.Some? ==> Enabled(s2, DecideAcquire(p)) && Enabled(Apply(s2, DecideAcquire(p)), AnswerAcquirePut(p, true)))
    ensures var s2 := Apply(Apply(s, StartAcquire(p)), AnswerAcquireGet(p));
      var t := if s.stored.None? then Apply(s2, AnswerAcquirePost(p, true))
               else Apply(Apply(s2, DecideAcquire(p)), AnswerAcquirePut(p, true));
      && t.stored == Some(LeaseObject(p, Some(s.pods[p].clock - s.pods[p].clock % 1000), 60, s.nextVersion))
      && Holds(t, p)
  {
  }

  /** A pod that finds a fresh lease gives up, whoever holds it. */
  lemma FreshLeaseIsRespected(s: State, p: Pod)
    requires p in s.pods && s.pods[p].phase.Idle? && s.pods[p].mode.Acquiring?
    requires s.stored.Some? && !IsStale(s.stored.value, s.pods[p].clock)
    ensures Enabled(Apply(s, StartAcquire(p)), AnswerAcquireGet(p))
    ensures Enabled(Apply(Apply(s, StartAcquire(p)), AnswerAcquireGet(p)), DecideAcquire(p))
    ensures Apply(Apply(Apply(s, StartAcquire(p)), AnswerAcquireGet(p)), DecideAcquire(p)) == s
  {
    var t := Apply(Apply(Apply(s, StartAcquire(p)), AnswerAcquireGet(p)), DecideAcquire(p));
    assert t.pods[p] == s.pods[p];
    assert t.pods == s.pods;
  }

  /** A holder whose lease another pod has taken over learns it at its next renewal. */
  lemma LostLeaseIsNoticed(s: State, p: Pod)
    requires p in s.pods && s.pods[p].phase.Idle? && s.pods[p].mode.Holding?
    requires s.stored.None? || s.stored.value.holder != p
    ensures var t := Apply(s, StartRenew(p));
      t.pods[p].mode.Ended? && t.pods[p].phase.Idle? && t.stored == s.stored
  {
  }

  /** A renewal that finds the lease changed since it was read loses it, if the answer comes
      through; either way the stored lease is left alone. */
  lemma ConflictingRenewLoses(s: State, p: Pod, reported: bool)
    requires p in s.pods && s.pods[p].phase.RenewPut? && s.pods[p].mode.Holding?
    requires s.stored.Some? && s.stored.value.version != s.pods[p].phase.seen.version
    ensures var t := Apply(s, AnswerRenewPut(p, reported));
      && t.stored == s.stored && t.pods[p].phase.Idle?
      && (if reported then t.pods[p].mode.Ended? else t.pods[p].mode.Holding?)
  {
  }

  /** Releasing ends the pod's hold at once and sends one DELETE, which removes whatever lease
      is stored when it lands, and nothing when it is lost. */
  lemma ReleaseDeletesOnce(s: State, p: Pod)
    requires p in s.pods && s.pods[p].mode.Holding?
    ensures var t := Apply(s, Release(p));
      && t.pods[p].mode.Ended? && t.stored == s.stored && Enabled(t, LandDelete(p)) && Enabled(t, LoseDelete(p))
      && Apply(t, LandDelete(p)).stored.None? && !Enabled(Apply(t, LandDelete(p)), LandDelete(p))
      && Apply(t, LoseDelete(p)).stored == s.stored && !Enabled(Apply(t, LoseDelete(p)), LandDelete(p))
  {
  }

  /** Nothing is kept from going wrong: whatever a pod is doing, its clock may advance, it may
      crash, and a request it waits for may be lost, or given up on if it is a write; new pods
      may start at any time, on any clock. */
  lemma AnythingMayHappen(s: State, p: Pod, elapsed: nat, clock: int)
    ensures p !in s.pods ==> Enabled(s, Spawn(p, clock))
    ensures p in s.pods ==> Enabled(s, Tick(p, elapsed)) && Enabled(s, Crash(p))
    ensures p in s.pods && s.pods[p].phase != Idle ==> Enabled(s, LoseRequest(p))
    ensures p in s.pods && (s.pods[p].phase.AcquirePost? || s.pods[p].phase.AcquirePut? || s.pods[p].phase.RenewPut?) ==>
      Enabled(s, AbandonWrite(p)) && Enabled(Apply(s, AbandonWrite(p)), LandStray(p, |s.pods[p].stray|))
    ensures p in s.pods ==> Apply(s, Crash(p)).pods[p].mode.Ended? && Apply(s, Tick(p, elapsed)).pods[p].clock == s.pods[p].clock + elapsed
  {
  }

  predicate EndsCall(step: Step) {
    || step.AnswerAcquirePost? || step.AnswerAcquirePut? || step.AnswerRenewPut?
    || step.LoseRequest? || step.AbandonWrite?
  }

  /** A pod makes one call at a time: it starts one only when idle, and any answer, loss or
      giving up leaves it idle again. */
  lemma OneCallAtATime(s: State, step: Step)
    requires Enabled(s, step)
    ensures step.StartAcquire? || step.StartRenew? ==> s.pods[step.p].phase.Idle?
    ensures EndsCall(step) ==> Apply(s, step).pods[step.p].phase.Idle?
  {
  }

  /** A late write lands once: it takes effect exactly as the write in time would have, a POST
      if no lease is stored and a PUT if the lease is as it was read, and no report of it
      reaches the pod. */
  lemma LateWriteLandsOnce(s: State, p: Pod, k: nat)
    requires Enabled(s, LandStray(p, k)) && (s.pods[p].stray[k].AcquirePost? || s.pods[p].stray[k].AcquirePut? || s.pods[p].stray[k].RenewPut?)
    ensures var t, r := Apply(s, LandStray(p, k)), s.pods[p].stray[k];
      && t.pods[p].mode == s.pods[p].mode && t.pods[p].phase == s.pods[p].phase
      && t.pods[p].stray == s.pods[p].stray[..k] + s.pods[p].stray[k + 1..]
      && t.stored ==
         if r.AcquirePost? && s.stored.None? then Some(LeaseObject(p, Some(r.stamp), 60, s.nextVersion))
         else if r.AcquirePut? && s.stored.Some? && s.stored.value.version == r.seen.version
         then Some(LeaseObject(p, Some(r.stamp), 60, s.nextVersion))
         else if r.RenewPut? && s.stored.Some? && s.stored.value.version == r.seen.version
         then Some(LeaseObject(p, Some(r.stamp), r.seen.durationSeconds, s.nextVersion))
         else s.stored
  {
  }
}
