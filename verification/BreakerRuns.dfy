/** What the circuit breaker guarantees over every run of Init and AcceptNext calls and of
    restarts of the process. */
module BreakerRuns {
  import opened Common
  import opened Canonical
  import opened Breaker

  datatype World = World(codec: Codec, cfg: Config)

  /** Where a payload comes from: the cached file, or a fetch with or without a tag. */
  datatype Source = Cached | Fetched(tagged: bool)
  {
    predicate Tagged() { Fetched? && tagged }
  }

  datatype Event =
    | Init(data: Bytes, source: Source, t: Timing)
    | AcceptNext(now: int)
    | Restart(disk: Option<Bytes>)

  function InitOf(w: World, s: State, e: Event): (State, Outcome)
    requires e.Init?
  {
    InitStep(w.codec, w.cfg, s, e.data, e.source.Tagged(), e.t)
  }

  function Step(w: World, s: State, e: Event): State {
    match e
    case Init(_, _, _) => InitOf(w, s, e).0
    case AcceptNext(now) => s.(armedUntil := Some(now + ACCEPT_TTL))
    case Restart(disk) => Initial(w.codec, disk)
  }

  /** The event is an Init that served its payload. */
  predicate Stores(w: World, s: State, e: Event) {
    e.Init? && InitOf(w, s, e).1.Stored()
  }

  /** The state after the first n events of a run. */
  function After(w: World, s0: State, run: seq<Event>, n: nat): State
    requires n <= |run|
  {
    if n == 0 then s0 else Step(w, After(w, s0, run, n - 1), run[n - 1])
  }

  function HashesOf(w: World, data: Bytes): (Hashes, nat)
    requires w.codec.parse(data).Some?
  {
    RowHashes(w.codec.fnv, w.codec.parse(data).value)
  }

  /** The payload parses and enough of its rows carry an id. */
  predicate Trackable(w: World, data: Bytes) {
    w.codec.parse(data).Some? && !TooFewTracked(w.cfg, HashesOf(w, data).0, HashesOf(w, data).1)
  }

  ghost predicate NoCollision(w: World, data: Bytes) {
    forall p :: w.codec.fnv(p) == w.codec.fnv(data) ==> p == data
  }

  // ----- thresholds, said without division

  /** The generation stays within both limits. */
  predicate WithinLimits(cfg: Config, baseline: Hashes, hashes: Hashes) {
    var changed, common := |ChangedIds(baseline, hashes)|, |CommonIds(baseline, hashes)|;
    var removed := |baseline| - common;
    && (changed < cfg.minChangedRows
        || (if common == 0 then 0.0 <= cfg.maxChangePercent
            else 100.0 * changed as real <= cfg.maxChangePercent * common as real))
    && (removed < cfg.minChangedRows
        || 100.0 * removed as real <= cfg.maxRemovePercent * |baseline| as real)
  }

  lemma PercentExceeds(part: int, whole: int, limit: real)
    requires whole > 0
    ensures Percent(part, whole) > limit <==> 100.0 * part as real > limit * whole as real
  {
    var p, n := part as real, whole as real;
    assert Percent(part, whole) * n == 100.0 * p;
    if Percent(part, whole) > limit {
      assert Percent(part, whole) * n > limit * n;
    } else {
      assert Percent(part, whole) * n <= limit * n;
    }
  }

  lemma NoTripIffWithinLimits(cfg: Config, baseline: Hashes, hashes: Hashes)
    requires |baseline| > 0
    ensures TripReason(cfg, baseline, hashes).None? <==> WithinLimits(cfg, baseline, hashes)
  {
    var changed, common := |ChangedIds(baseline, hashes)|, |CommonIds(baseline, hashes)|;
    if common > 0 { PercentExceeds(changed, common, cfg.maxChangePercent); }
    PercentExceeds(|baseline| - common, |baseline|, cfg.maxRemovePercent);
  }

  /** Which limit a generation exceeds, the one on changes coming first, and the numbers
      reported with it. */
  lemma TripReasonMeaning(cfg: Config, baseline: Hashes, hashes: Hashes)
    requires |baseline| > 0
    ensures var changed, common := |ChangedIds(baseline, hashes)|, |CommonIds(baseline, hashes)|;
      var removed := |baseline| - common;
      var tooManyChanged := changed >= cfg.minChangedRows
        && (if common == 0 then cfg.maxChangePercent < 0.0
            else 100.0 * changed as real > cfg.maxChangePercent * common as real);
      var tooManyRemoved := removed >= cfg.minChangedRows
        && 100.0 * removed as real > cfg.maxRemovePercent * |baseline| as real;
      TripReason(cfg, baseline, hashes) ==
        if tooManyChanged then Some(TooManyChanged(changed, common))
        else if tooManyRemoved then Some(TooManyRemoved(removed, |baseline|))
        else None
  {
    var changed, common := |ChangedIds(baseline, hashes)|, |CommonIds(baseline, hashes)|;
    if common > 0 { PercentExceeds(changed, common, cfg.maxChangePercent); }
    PercentExceeds(|baseline| - common, |baseline|, cfg.maxRemovePercent);
  }

  /** Too large a share of the rows has no id, whatever the row floor and any arm. */
  predicate TooManyWithoutId(cfg: Config, rows: seq<Json>) {
    var missing := |WithoutId(rows)|;
    missing > 0 && 100.0 * missing as real > cfg.maxRemovePercent * (missing + |Ids(rows)|) as real
  }

  lemma {:induction false} TooFewTrackedMeaning(w: World, rows: seq<Json>)
    ensures var (hashes, noId) := RowHashes(w.codec.fnv, rows);
      TooFewTracked(w.cfg, hashes, noId) <==> TooManyWithoutId(w.cfg, rows)
  {
    hide RowHashes, WithoutId, Ids;
    RowsWithoutIdCounted(w.codec.fnv, rows);
    RowIdsTracked(w.codec.fnv, rows);
    var (hashes, noId) := RowHashes(w.codec.fnv, rows);
    assert |hashes| == |hashes.Keys|;
    if noId > 0 { PercentExceeds(noId, noId + |hashes|, w.cfg.maxRemovePercent); }
  }

  /** When an Init call refuses a payload as invalid, from any state: it does not return
      early, and the payload is no array, or too many of its rows have no id. */
  lemma RefusedAsInvalidIff(w: World, s: State, data: Bytes, tagged: bool, t: Timing)
    ensures var outcome := InitStep(w.codec, w.cfg, s, data, tagged, t).1;
      && (outcome.HeldUnchanged? <==> s.held && !Armed(s.armedUntil, t.entry) && w.codec.fnv(data) == s.lastRejected)
      && (outcome.NotAnArray? <==> !outcome.HeldUnchanged? && w.codec.parse(data).None?)
      && (outcome.RowsWithoutId? <==>
            !outcome.HeldUnchanged? && w.codec.parse(data).Some? && TooManyWithoutId(w.cfg, w.codec.parse(data).value))
  {
    hide TripReason, RowHashes;
    if w.codec.parse(data).Some? { TooFewTrackedMeaning(w, w.codec.parse(data).value); }
  }

  /** An arm is good for fifteen minutes, to the nanosecond before. */
  lemma ArmLasts(now: int, later: int)
    ensures Armed(Rearm(None, [now]), later) <==> later < now + 900_000_000_000
  {
  }

  /** While the breaker is held, the time of the hold is that of the generation that tripped
      first; that one alerts at once, and later refusals at most once a minute. */
  lemma {:induction false} HoldAndAlert(w: World, s: State, e: Event)
    requires e.Init?
    ensures var s', outcome := Step(w, s, e), InitOf(w, s, e).1;
      && (s.held && s'.held ==> s'.heldSince == s.heldSince)
      && (!s.held && s'.held ==> outcome.Tripped? && s'.heldSince == Some(e.t.check) && s'.lastTripLog == Some(e.t.check))
      && (outcome.Tripped? ==> s'.held && s'.tripReason == Some(outcome.reason) && s'.lastRejected == w.codec.fnv(e.data))
      && (outcome.Tripped? || outcome.NotAnArray? || outcome.RowsWithoutId? ==>
            s'.lastTripLog == if (outcome.Tripped? && !s.held) || s.lastTripLog.None? || e.t.check - s.lastTripLog.value > 60_000_000_000
                              then Some(e.t.check) else s.lastTripLog)
      && (outcome.Accepted? ==> s'.lastTripLog.None? && s'.lastRejected == 0)
      && (outcome.Replayed? || outcome.HeldUnchanged? ==> s'.lastTripLog == s.lastTripLog && s'.tripReason == s.tripReason)
  {
    hide TripReason, TooFewTracked, RowHashes, Rearm;
  }

  // ----- the invariant of reachable states

  /** p is the payload behind lastRejected, and it still trips against the baseline. */
  ghost predicate RejectedPayload(w: World, s: State, p: Bytes) {
    && w.codec.fnv(p) == s.lastRejected
    && Trackable(w, p)
    && |s.baseline| > 0
    && TripReason(w.cfg, s.baseline, HashesOf(w, p).0) == s.tripReason
    && s.tripReason.Some?
  }

  ghost predicate HeldFacts(w: World, s: State) {
    if s.held then s.heldSince.Some? && exists p :: RejectedPayload(w, s, p)
    else s.heldSince.None? && s.tripReason.None?
  }

  predicate SubMap(a: Hashes, b: Hashes) {
    forall id | id in a :: id in b && b[id] == a[id]
  }

  ghost predicate ServedFacts(w: World, s: State, replayed: bool) {
    s.served.Some? ==>
      && w.codec.parse(s.served.value).Some?
      && SubMap(HashesOf(w, s.served.value).0, s.baseline)
      && (!replayed ==> HashesOf(w, s.served.value).0 == s.baseline)
  }

  /** Whether the bytes now served were stored by the bootstrap replay. */
  predicate ServesReplay(w: World, s0: State, run: seq<Event>, n: nat)
    requires n <= |run|
  {
    n > 0 &&
    var s, e := After(w, s0, run, n - 1), run[n - 1];
    if Stores(w, s, e) then InitOf(w, s, e).1.Replayed?
    else !e.Restart? && ServesReplay(w, s0, run, n - 1)
  }

  lemma {:induction false} HeldStep(w: World, s: State, e: Event)
    requires HeldFacts(w, s)
    ensures HeldFacts(w, Step(w, s, e))
  {
    hide TripReason, TooFewTracked, RowHashes, Alert, Rearm;
    var s' := Step(w, s, e);
    if s'.held {
      if s'.lastRejected == s.lastRejected && s'.baseline == s.baseline && s'.tripReason == s.tripReason && s.held {
        var p :| RejectedPayload(w, s, p);
        assert RejectedPayload(w, s', p);
      } else {
        assert RejectedPayload(w, s', e.data);
      }
    }
  }

  lemma ReplayIsSubMap(baseline: Hashes, hashes: Hashes)
    requires |ChangedIds(baseline, hashes)| == 0 && |CommonIds(baseline, hashes)| == |hashes|
    ensures SubMap(hashes, baseline)
  {
    var common := CommonIds(baseline, hashes);
    if exists id :: id in hashes && id !in common {
      var id :| id in hashes && id !in common;
      SubsetCardinality(common, hashes.Keys - {id});
      assert false;
    }
    forall id | id in hashes ensures id in baseline && baseline[id] == hashes[id] {
      assert id in common;
      assert id !in ChangedIds(baseline, hashes);
    }
  }

  lemma SubsetCardinality<T>(a: set<T>, b: set<T>)
    requires a <= b
    ensures |a| <= |b|
  {
    if a != {} {
      var x :| x in a;
      SubsetCardinality(a - {x}, b - {x});
    }
  }

  lemma RearmTwice(armedUntil: Option<int>, a: seq<int>, b: seq<int>)
    ensures Rearm(Rearm(armedUntil, a), b) == Rearm(armedUntil, a + b)
  {
    assert b != [] ==> (a + b)[|a + b| - 1] == b[|b| - 1];
    assert b == [] ==> a + b == a;
  }

  /** What an Init call does to the served bytes, the baseline and the arm. */
  lemma InitEffect(w: World, s: State, e: Event)
    requires e.Init?
    ensures var (s', outcome) := InitOf(w, s, e);
      if !outcome.Stored() then
        && s'.served == s.served && s'.baseline == s.baseline
        && s'.armedUntil == Rearm(s.armedUntil, e.t.armsBeforeCheck + e.t.armsBeforeConsume)
      else
        && s'.served == Some(e.data) && s'.armedUntil.None? && w.codec.parse(e.data).Some?
        && (outcome.Accepted? ==> s'.baseline == HashesOf(w, e.data).0)
        && (outcome.Replayed? ==> s'.baseline == s.baseline && SubMap(HashesOf(w, e.data).0, s.baseline))
  {
    hide TripReason, TooFewTracked, RowHashes, Alert;
    RearmTwice(s.armedUntil, e.t.armsBeforeCheck, e.t.armsBeforeConsume);
    if InitOf(w, s, e).1.Replayed? {
      ReplayIsSubMap(s.baseline, HashesOf(w, e.data).0);
    }
  }

  lemma {:induction false} ServedStep(w: World, s: State, e: Event, replayed: bool)
    requires ServedFacts(w, s, replayed)
    ensures ServedFacts(w, Step(w, s, e),
              if Stores(w, s, e) then InitOf(w, s, e).1.Replayed?
              else !e.Restart? && replayed)
  {
    hide InitStep;
    if e.Init? { InitEffect(w, s, e); }
  }

  /** In every reachable state: the row hashes of the served bytes are a sub-map of the
      baseline, equal to it unless the bootstrap replay stored them; the breaker is held
      exactly when a hold time and a reason are recorded, and then the baseline is not
      empty and the payload behind lastRejected still trips against it. */
  lemma {:induction false} ReachableState(w: World, cache: Option<Bytes>, run: seq<Event>, n: nat)
    requires n <= |run|
    ensures var s := After(w, Initial(w.codec, cache), run, n);
      HeldFacts(w, s) && ServedFacts(w, s, ServesReplay(w, Initial(w.codec, cache), run, n))
  {
    if n > 0 {
      ReachableState(w, cache, run, n - 1);
      var s := After(w, Initial(w.codec, cache), run, n - 1);
      HeldStep(w, s, run[n - 1]);
      ServedStep(w, s, run[n - 1], ServesReplay(w, Initial(w.codec, cache), run, n - 1));
    }
  }

  // ----- the short circuit

  /** The early return and the full check agree on the verdict, and on the state up to the
      time of the last alert. */
  ghost predicate EarlyIsFull(w: World, s: State, data: Bytes, tagged: bool, t: Timing) {
    var (early, verdict) := InitStep(w.codec, w.cfg, s, data, tagged, t);
    var (full, outcome) := FullCheck(w.codec, w.cfg, s, data, tagged, t);
    && verdict.HeldUnchanged? && outcome.Tripped? && s.tripReason == Some(outcome.reason)
    && early == full.(lastTripLog := s.lastTripLog)
  }

  lemma ShortCircuitInHeldState(w: World, s: State, data: Bytes, tagged: bool, t: Timing)
    requires NoCollision(w, data) && HeldFacts(w, s) && ShortCircuits(w.codec, s, data, t)
    ensures EarlyIsFull(w, s, data, tagged, t) <==> !Armed(Rearm(s.armedUntil, t.armsBeforeCheck), t.check)
  {
    var p :| RejectedPayload(w, s, p);
    assert p == data;
    RearmTwice(s.armedUntil, t.armsBeforeCheck, t.armsBeforeConsume);
  }

  /** In every reachable state, returning early for a byte-identical rejected generation
      refines the full check if and only if no arm has come up, or become valid, between
      the test at the start of the call and the check under the lock. */
  lemma {:induction false} ShortCircuitRefinesFullCheckIff(w: World, cache: Option<Bytes>, run: seq<Event>,
                                                           data: Bytes, tagged: bool, t: Timing)
    requires NoCollision(w, data)
    requires ShortCircuits(w.codec, After(w, Initial(w.codec, cache), run, |run|), data, t)
    ensures var s := After(w, Initial(w.codec, cache), run, |run|);
      EarlyIsFull(w, s, data, tagged, t) <==> !Armed(Rearm(s.armedUntil, t.armsBeforeCheck), t.check)
  {
    hide InitStep, FullCheck;
    ReachableState(w, cache, run, |run|);
    ShortCircuitInHeldState(w, After(w, Initial(w.codec, cache), run, |run|), data, tagged, t);
  }

  /** The generation trips against the baseline, as the first one after a start. */
  predicate TripsAtFirst(w: World, cache: Option<Bytes>, data: Bytes) {
    && Trackable(w, data) && |Initial(w.codec, cache).baseline| > 0
    && TripReason(w.cfg, Initial(w.codec, cache).baseline, HashesOf(w, data).0).Some?
  }

  /** An AcceptNext call between the two tests is overlooked by the early return, while the
      full check would have accepted. The arm stays pending, so the next poll accepts. */
  lemma {:induction false} ArmDuringCallIsOverlooked(w: World, cache: Option<Bytes>, data: Bytes, now: int)
    requires TripsAtFirst(w, cache, data)
    ensures var quiet, arming := Timing(now, now, [], []), Timing(now, now, [now], []);
      var s := After(w, Initial(w.codec, cache), [Init(data, Fetched(true), quiet)], 1);
      var (s', outcome) := InitStep(w.codec, w.cfg, s, data, true, arming);
      && s.held && ShortCircuits(w.codec, s, data, arming)
      && outcome.HeldUnchanged? && s'.held
      && FullCheck(w.codec, w.cfg, s, data, true, arming).1.Accepted?
      && InitStep(w.codec, w.cfg, s', data, true, quiet).1.Accepted?
  {
    hide TripReason, TooFewTracked, RowHashes;
    var quiet := Timing(now, now, [], []);
    var run := [Init(data, Fetched(true), quiet)];
    var s0 := Initial(w.codec, cache);
    assert After(w, s0, run, 0) == s0 && run[0] == Init(data, Fetched(true), quiet);
    assert After(w, s0, run, 1) == Step(w, s0, run[0]);
  }

  // ----- recovery

  lemma ZeroDiff(b: Hashes)
    ensures |ChangedIds(b, b)| == 0 && |CommonIds(b, b)| == |b|
  {
    assert ChangedIds(b, b) == {};
    assert CommonIds(b, b) == b.Keys;
  }

  predicate ToleratesNoChange(cfg: Config) {
    cfg.minChangedRows > 0 || (cfg.maxChangePercent >= 0.0 && cfg.maxRemovePercent >= 0.0)
  }

  lemma ZeroDiffTrips(cfg: Config, b: Hashes)
    requires |b| > 0
    ensures TripReason(cfg, b, b).None? <==> ToleratesNoChange(cfg)
  {
    ZeroDiff(b);
    ZeroPercent(|b|);
  }

  /** The Init call made the payload the served generation and left nothing held. */
  predicate Clears(w: World, s: State, data: Bytes, tagged: bool, t: Timing) {
    var (s', outcome) := InitStep(w.codec, w.cfg, s, data, tagged, t);
    outcome.Accepted? && !s'.held && s'.served == Some(data) && s'.baseline == s.baseline
  }

  /** There is no baseline, the limits tolerate zero changes, or the call sees an arm at its
      check and does not return before it. */
  predicate LetsThrough(w: World, s: State, data: Bytes, t: Timing) {
    || |s.baseline| == 0 || ToleratesNoChange(w.cfg)
    || (Armed(Rearm(s.armedUntil, t.armsBeforeCheck), t.check) && !ShortCircuits(w.codec, s, data, t))
  }

  lemma ZeroDiffInState(w: World, s: State, data: Bytes, tagged: bool, t: Timing)
    requires NoCollision(w, data) && HeldFacts(w, s) && Trackable(w, data) && HashesOf(w, data).0 == s.baseline
    ensures Clears(w, s, data, tagged, t) <==> LetsThrough(w, s, data, t) && (tagged || !s.held || s.served.Some?)
  {
    ZeroDiff(s.baseline);
    if |s.baseline| > 0 {
      ZeroDiffTrips(w.cfg, s.baseline);
      if ShortCircuits(w.codec, s, data, t) {
        var p :| RejectedPayload(w, s, p);
        assert p == data;
      }
    }
  }

  /** A payload identical to the baseline clears the held state and becomes the served
      generation, in every reachable state, if and only if the call lets it through and it
      is not taken for the bootstrap replay, which needs a payload without a tag while the
      breaker is held and nothing is served yet. */
  lemma {:induction false} ZeroDiffClearsHeldIff(w: World, cache: Option<Bytes>, run: seq<Event>, data: Bytes, tagged: bool, t: Timing)
    requires NoCollision(w, data)
    requires Trackable(w, data) && HashesOf(w, data).0 == After(w, Initial(w.codec, cache), run, |run|).baseline
    ensures var s := After(w, Initial(w.codec, cache), run, |run|);
      Clears(w, s, data, tagged, t) <==> LetsThrough(w, s, data, t) && (tagged || !s.held || s.served.Some?)
  {
    hide Clears, LetsThrough;
    ReachableState(w, cache, run, |run|);
    ZeroDiffInState(w, After(w, Initial(w.codec, cache), run, |run|), data, tagged, t);
  }

  /** Under a negative limit without a row floor the breaker trips on the very payload its
      baseline was seeded from, and stays held however often that payload comes again. */
  lemma {:induction false} NegativeLimitHoldsForever(w: World, data: Bytes, run: seq<Event>, n: nat)
    requires n <= |run| && Trackable(w, data) && !ToleratesNoChange(w.cfg) && |HashesOf(w, data).0| > 0
    requires forall i | 0 <= i < |run| ::
               run[i].Init? && run[i].data == data && run[i].t.armsBeforeCheck == run[i].t.armsBeforeConsume == []
    ensures var s := After(w, Initial(w.codec, Some(data)), run, n);
      s.baseline == HashesOf(w, data).0 && s.armedUntil.None? && s.served.None? && (n > 0 ==> s.held)
  {
    if n > 0 {
      NegativeLimitHoldsForever(w, data, run, n - 1);
      NegativeLimitStep(w, After(w, Initial(w.codec, Some(data)), run, n - 1), run[n - 1]);
    }
  }

  lemma NegativeLimitStep(w: World, s: State, e: Event)
    requires e.Init? && Trackable(w, e.data) && !ToleratesNoChange(w.cfg) && |s.baseline| > 0
    requires s.baseline == HashesOf(w, e.data).0 && s.armedUntil.None?
    requires e.t.armsBeforeCheck == e.t.armsBeforeConsume == []
    ensures var s' := Step(w, s, e);
      s'.baseline == s.baseline && s'.armedUntil.None? && s'.served == s.served && s'.held
  {
    ZeroDiffTrips(w.cfg, s.baseline);
  }

  lemma ZeroPercent(whole: int)
    requires whole > 0
    ensures Percent(0, whole) == 0.0
  {
  }

  // ----- one arm, one bypass

  function AcceptCalls(run: seq<Event>, n: nat): nat
    requires n <= |run|
  {
    if n == 0 then 0
    else
      AcceptCalls(run, n - 1) +
      match run[n - 1]
      case AcceptNext(_) => 1
      case Init(_, _, t) => |t.armsBeforeCheck| + |t.armsBeforeConsume|
      case Restart(_) => 0
  }

  /** The event served a generation that exceeds a limit against a non-empty baseline. */
  predicate Bypass(w: World, s: State, e: Event) {
    && Stores(w, s, e)
    && |s.baseline| > 0
    && !WithinLimits(w.cfg, s.baseline, HashesOf(w, e.data).0)
  }

  function Bypasses(w: World, s0: State, run: seq<Event>, n: nat): nat
    requires n <= |run|
  {
    if n == 0 then 0
    else Bypasses(w, s0, run, n - 1) + if Bypass(w, After(w, s0, run, n - 1), run[n - 1]) then 1 else 0
  }

  /** A generation beyond a limit is served only while armed at the threshold check. */
  lemma BypassIsArmed(w: World, s: State, e: Event)
    requires Bypass(w, s, e)
    ensures Armed(Rearm(s.armedUntil, e.t.armsBeforeCheck), e.t.check)
    ensures Step(w, s, e).armedUntil.None?
  {
    NoTripIffWithinLimits(w.cfg, s.baseline, HashesOf(w, e.data).0);
  }

  /** Over every run, generations beyond a limit are accepted at most once per AcceptNext
      call; an arm not yet used up still counts. */
  lemma {:induction false} BypassesNeedAccepts(w: World, cache: Option<Bytes>, run: seq<Event>, n: nat)
    requires n <= |run|
    ensures var s0 := Initial(w.codec, cache);
      Bypasses(w, s0, run, n) + (if After(w, s0, run, n).armedUntil.Some? then 1 else 0) <= AcceptCalls(run, n)
  {
    hide InitStep;
    if n > 0 {
      var s := After(w, Initial(w.codec, cache), run, n - 1);
      BypassesNeedAccepts(w, cache, run, n - 1);
      BypassBalance(w, s, run[n - 1]);
    }
  }

  /** One event: a bypass uses up the pending arm or one made during the event. */
  lemma {:induction false} BypassBalance(w: World, s: State, e: Event)
    ensures (if Bypass(w, s, e) then 1 else 0) + (if Step(w, s, e).armedUntil.Some? then 1 else 0)
         <= (if s.armedUntil.Some? then 1 else 0) + AcceptCalls([e], 1)
  {
    if Bypass(w, s, e) { BypassIsArmed(w, s, e); }
    assert AcceptCalls([e], 0) == 0;
  }

  predicate ArmsAt(e: Event, now: int) {
    match e
    case AcceptNext(at) => at == now
    case Init(_, _, t) => now in t.armsBeforeCheck || now in t.armsBeforeConsume
    case Restart(_) => false
  }

  /** An event that leaves an arm pending stored nothing, and armed it or found it there. */
  lemma PendingArm(w: World, s: State, e: Event) returns (armedNow: bool, now: int)
    requires Step(w, s, e).armedUntil.Some?
    ensures !Stores(w, s, e)
    ensures if armedNow then ArmsAt(e, now) && Step(w, s, e).armedUntil == Some(now + ACCEPT_TTL)
            else Step(w, s, e).armedUntil == s.armedUntil
  {
    hide InitStep;
    if e.AcceptNext? {
      armedNow, now := true, e.now;
    } else if e.Init? {
      InitEffect(w, s, e);
      var arms := e.t.armsBeforeCheck + e.t.armsBeforeConsume;
      armedNow, now := arms != [], 0;
      if armedNow { now := arms[|arms| - 1]; }
    }
  }

  /** No event from j on, before event i, stored a generation. */
  ghost predicate NothingStored(w: World, cache: Option<Bytes>, run: seq<Event>, j: nat, i: nat)
    requires i <= |run|
  {
    forall m | j <= m < i :: !Stores(w, After(w, Initial(w.codec, cache), run, m), run[m])
  }

  /** The arm pending after the first i events was made by event j at time now, and no
      generation has been stored since. */
  ghost predicate ArmedBy(w: World, cache: Option<Bytes>, run: seq<Event>, i: nat, j: nat, now: int)
    requires i <= |run|
  {
    && j < i && ArmsAt(run[j], now)
    && After(w, Initial(w.codec, cache), run, i).armedUntil == Some(now + ACCEPT_TTL)
    && NothingStored(w, cache, run, j, i)
  }

  lemma {:induction false} ArmedByStep(w: World, cache: Option<Bytes>, run: seq<Event>, i: nat, j: nat, now: int)
    requires i < |run| && ArmedBy(w, cache, run, i, j, now)
    requires var s := After(w, Initial(w.codec, cache), run, i);
      Step(w, s, run[i]).armedUntil == s.armedUntil && !Stores(w, s, run[i])
    ensures ArmedBy(w, cache, run, i + 1, j, now)
  {
    forall m | j <= m < i + 1 ensures !Stores(w, After(w, Initial(w.codec, cache), run, m), run[m]) {
    }
  }

  /** A pending arm goes back to an AcceptNext call that no accepted generation has used. */
  lemma {:induction false} ArmOrigin(w: World, cache: Option<Bytes>, run: seq<Event>, i: nat) returns (j: nat, now: int)
    requires i <= |run| && After(w, Initial(w.codec, cache), run, i).armedUntil.Some?
    ensures ArmedBy(w, cache, run, i, j, now)
  {
    hide InitStep;
    var s := After(w, Initial(w.codec, cache), run, i - 1);
    var armedNow, armed := PendingArm(w, s, run[i - 1]);
    if armedNow {
      j, now := i - 1, armed;
    } else {
      j, now := ArmOrigin(w, cache, run, i - 1);
      ArmedByStep(w, cache, run, i - 1, j, now);
    }
  }

  /** Every generation accepted beyond a limit was confirmed by an AcceptNext call less
      than the time limit before its check, and that call confirmed no earlier one. */
  lemma {:induction false} BypassWasConfirmed(w: World, cache: Option<Bytes>, run: seq<Event>, i: nat) returns (j: nat, now: int)
    requires i < |run| && Bypass(w, After(w, Initial(w.codec, cache), run, i), run[i])
    ensures j <= i && ArmsAt(run[j], now)
    ensures run[i].t.check < now + ACCEPT_TTL
    ensures forall m | j <= m < i :: !Stores(w, After(w, Initial(w.codec, cache), run, m), run[m])
  {
    var s := After(w, Initial(w.codec, cache), run, i);
    BypassIsArmed(w, s, run[i]);
    var arms := run[i].t.armsBeforeCheck;
    if arms == [] {
      j, now := ArmOrigin(w, cache, run, i);
    } else {
      j, now := i, arms[|arms| - 1];
    }
  }

  // ----- restarts

  /** The cached file: every fetched generation that is stored is written to it, and a
      restart keeps it. */
  function Disk(w: World, cache: Option<Bytes>, run: seq<Event>, n: nat): Option<Bytes>
    requires n <= |run|
  {
    if n == 0 then cache
    else if Stores(w, After(w, Initial(w.codec, cache), run, n - 1), run[n - 1]) && run[n - 1].source.Fetched?
    then Some(run[n - 1].data)
    else Disk(w, cache, run, n - 1)
  }

  /** What is loaded locally, at a restart or when a fetch gives nothing, is that file. */
  ghost predicate ReadsDisk(w: World, cache: Option<Bytes>, run: seq<Event>) {
    forall k: nat | k < |run| ::
      && (run[k].Restart? ==> run[k].disk == Disk(w, cache, run, k))
      && (run[k].Init? && run[k].source.Cached? ==> Disk(w, cache, run, k) == Some(run[k].data))
  }

  /** The file holds what is served, and until then what the baseline was seeded from. */
  predicate OnDisk(w: World, s: State, disk: Option<Bytes>) {
    if s.served.Some? then disk == s.served else s.baseline == Initial(w.codec, disk).baseline
  }

  lemma {:induction false} OnDiskStep(w: World, s: State, disk: Option<Bytes>, e: Event)
    requires OnDisk(w, s, disk)
    requires e.Restart? ==> e.disk == disk
    requires e.Init? && e.source.Cached? ==> disk == Some(e.data)
    ensures OnDisk(w, Step(w, s, e), if Stores(w, s, e) && e.source.Fetched? then Some(e.data) else disk)
  {
    hide InitStep;
    if e.Init? { InitEffect(w, s, e); }
  }

  lemma {:induction false} ServedIsOnDisk(w: World, cache: Option<Bytes>, run: seq<Event>, n: nat)
    requires n <= |run| && ReadsDisk(w, cache, run)
    ensures OnDisk(w, After(w, Initial(w.codec, cache), run, n), Disk(w, cache, run, n))
  {
    hide InitStep;
    if n > 0 {
      ServedIsOnDisk(w, cache, run, n - 1);
      OnDiskStep(w, After(w, Initial(w.codec, cache), run, n - 1), Disk(w, cache, run, n - 1), run[n - 1]);
    }
  }

  /** What is served accounts for the whole baseline. */
  predicate ServesBaseline(w: World, s: State) {
    s.served.Some? ==> w.codec.parse(s.served.value).Some? && HashesOf(w, s.served.value).0 == s.baseline
  }

  /** The state of a process restarted now. */
  function Restarted(w: World, cache: Option<Bytes>, run: seq<Event>): State {
    Initial(w.codec, Disk(w, cache, run, |run|))
  }

  /** A restart, at any point of any run, never adds to the baseline, and keeps it if and only
      if the served payload accounts for all of it, which it does unless a bootstrap replay
      is served. */
  lemma {:induction false} RestartKeepsBaselineIff(w: World, cache: Option<Bytes>, run: seq<Event>)
    requires ReadsDisk(w, cache, run)
    ensures var s, restarted := After(w, Initial(w.codec, cache), run, |run|), Restarted(w, cache, run);
      && SubMap(restarted.baseline, s.baseline)
      && (restarted.baseline == s.baseline <==> ServesBaseline(w, s))
      && (!ServesReplay(w, Initial(w.codec, cache), run, |run|) ==> ServesBaseline(w, s))
  {
    hide InitStep;
    ServedIsOnDisk(w, cache, run, |run|);
    ReachableState(w, cache, run, |run|);
  }

  lemma SubMapIsZeroDiff(baseline: Hashes, hashes: Hashes)
    requires SubMap(hashes, baseline)
    ensures |ChangedIds(baseline, hashes)| == 0 && |CommonIds(baseline, hashes)| == |hashes|
  {
    assert ChangedIds(baseline, hashes) == {};
    assert CommonIds(baseline, hashes) == hashes.Keys;
  }

  /** A fetched payload without a tag can be taken for the bootstrap replay: right after a
      start that tripped, one with some rows missing, few enough for the limits, is served
      and cached while the baseline keeps them, and a restart then forgets them. */
  lemma {:induction false} UntaggedReplayShrinksBaseline(w: World, cache: Option<Bytes>, bad: Bytes, less: Bytes, now: int)
    returns (run: seq<Event>)
    requires TripsAtFirst(w, cache, bad) && Trackable(w, less) && w.codec.fnv(less) != w.codec.fnv(bad)
    requires var b, h := Initial(w.codec, cache).baseline, HashesOf(w, less).0;
      SubMap(h, b) && h != b && TripReason(w.cfg, b, h).None?
    ensures ReadsDisk(w, cache, run) && Restarted(w, cache, run).baseline == HashesOf(w, less).0
    ensures After(w, Initial(w.codec, cache), run, |run|).baseline == Initial(w.codec, cache).baseline
  {
    hide TripReason, TooFewTracked, RowHashes, ChangedIds, CommonIds;
    var quiet, s0 := Timing(now, now, [], []), Initial(w.codec, cache);
    run := [Init(bad, Fetched(true), quiet), Init(less, Fetched(false), quiet)];
    SubMapIsZeroDiff(s0.baseline, HashesOf(w, less).0);
    assert After(w, s0, run, 0) == s0;
    var s1 := After(w, s0, run, 1);
    assert s1 == Step(w, s0, run[0]) && s1.held && s1.lastRejected == w.codec.fnv(bad) && s1.armedUntil.None?;
    assert s1.baseline == s0.baseline && s1.served.None?;
    assert InitOf(w, s1, run[1]).1.Replayed?;
    assert Disk(w, cache, run, 2) == Some(less);
  }

  /** Every fetched payload came with a tag. */
  predicate AllTagged(run: seq<Event>) {
    forall k | 0 <= k < |run| && run[k].Init? && run[k].source.Fetched? :: run[k].source.tagged
  }

  lemma ReplayHasNoTag(w: World, s: State, e: Event)
    requires e.Init?
    ensures InitOf(w, s, e).1.Replayed? ==> !e.source.Tagged() && s.served.None?
  {
  }

  lemma {:induction false} ServesBaselineStep(w: World, s: State, disk: Option<Bytes>, e: Event)
    requires OnDisk(w, s, disk) && ServesBaseline(w, s)
    requires e.Init? && e.source.Cached? ==> disk == Some(e.data)
    requires e.Init? && e.source.Fetched? ==> e.source.tagged
    ensures ServesBaseline(w, Step(w, s, e))
  {
    hide InitStep;
    if e.Init? {
      InitEffect(w, s, e);
      ReplayHasNoTag(w, s, e);
    }
  }

  /** And it always does while fetched payloads come with a tag. */
  lemma {:induction false} TaggedServesBaseline(w: World, cache: Option<Bytes>, run: seq<Event>, n: nat)
    requires n <= |run| && ReadsDisk(w, cache, run) && AllTagged(run)
    ensures ServesBaseline(w, After(w, Initial(w.codec, cache), run, n))
  {
    hide InitStep;
    if n > 0 {
      TaggedServesBaseline(w, cache, run, n - 1);
      ServedIsOnDisk(w, cache, run, n - 1);
      ServesBaselineStep(w, After(w, Initial(w.codec, cache), run, n - 1), Disk(w, cache, run, n - 1), run[n - 1]);
    }
  }

  /** A restart cannot bypass the breaker where it keeps the baseline: the first payload after
      it trips if and only if it exceeds a limit against the baseline from before, and no arm
      was made after the restart. */
  lemma {:induction false} RestartCannotBypass(w: World, cache: Option<Bytes>, run: seq<Event>, data: Bytes, tagged: bool, t: Timing)
    requires ReadsDisk(w, cache, run)
    ensures var s, restarted := After(w, Initial(w.codec, cache), run, |run|), Restarted(w, cache, run);
      && (AllTagged(run) ==> ServesBaseline(w, s))
      && (ServesBaseline(w, s) ==>
            (InitStep(w.codec, w.cfg, restarted, data, tagged, t).1.Tripped? <==>
               && Trackable(w, data) && |s.baseline| > 0 && TripReason(w.cfg, s.baseline, HashesOf(w, data).0).Some?
               && !Armed(Rearm(None, t.armsBeforeCheck), t.check)))
  {
    hide InitStep;
    RestartKeepsBaselineIff(w, cache, run);
    if AllTagged(run) { TaggedServesBaseline(w, cache, run, |run|); }
    FirstCheck(w, Disk(w, cache, run, |run|), data, tagged, t);
  }

  lemma FirstCheck(w: World, disk: Option<Bytes>, data: Bytes, tagged: bool, t: Timing)
    ensures InitStep(w.codec, w.cfg, Initial(w.codec, disk), data, tagged, t).1.Tripped?
       <==> TripsAtFirst(w, disk, data) && !Armed(Rearm(None, t.armsBeforeCheck), t.check)
  {
    hide TripReason, TooFewTracked, RowHashes;
  }
}
