/** The repository circuit breaker: a gate between payload generations.

    A new payload is compared row by row with the last accepted one (the baseline). It is
    refused when too many common rows changed or too many rows vanished, unless an
    operator armed a one-shot, timed acceptance. */
module Breaker {
  import opened Common
  import opened Canonical

  const ACCEPT_TTL: int := 15 * MINUTE
  const ID_KEY: Bytes := [105, 100]

  datatype Config = Config(maxChangePercent: real, maxRemovePercent: real, minChangedRows: int)

  /** The JSON array parser and the FNV hash, which the model leaves open. */
  datatype Codec = Codec(parse: Bytes -> Option<seq<Json>>, fnv: Bytes -> int)

  type Hashes = map<Bytes, int>

  datatype Reason =
    | TooManyChanged(changed: nat, common: nat)
    | TooManyRemoved(removed: int, total: nat)

  /** The clock readings of one Init call, and the AcceptNext calls other goroutines make
      while it runs: between its first reading and the threshold check, and between that
      check and the moment the arm is consumed. */
  datatype Timing = Timing(entry: int, check: int, armsBeforeCheck: seq<int>, armsBeforeConsume: seq<int>)

  datatype State = State(
    baseline: Hashes,
    lastRejected: int,
    lastTripLog: Option<int>,
    armedUntil: Option<int>,
    held: bool,
    heldSince: Option<int>,
    tripReason: Option<Reason>,
    served: Option<Bytes>)

  datatype Outcome = ReadFailed | HeldUnchanged | NotAnArray | RowsWithoutId | Tripped(reason: Reason) | Replayed | Accepted
  {
    predicate Stored() { Replayed? || Accepted? }
  }

  // ----- rows and their hashes

  function RowId(row: Json): Option<Bytes> {
    if row.JObject? && ID_KEY in row.fields && row.fields[ID_KEY].JString? && row.fields[ID_KEY].s != []
    then Some(row.fields[ID_KEY].s)
    else None
  }

  /** Row id to content hash (the last of repeated ids wins), and the rows without an id. */
  function RowHashes(fnv: Bytes -> int, rows: seq<Json>): (Hashes, nat) {
    if rows == [] then (map[], 0)
    else
      var n := |rows| - 1;
      var (hashes, noId) := RowHashes(fnv, rows[..n]);
      match RowId(rows[n])
      case Some(id) => (hashes[id := fnv(Encode(rows[n]))], noId)
      case None => (hashes, noId + 1)
  }

  method HashRows(fnv: Bytes -> int, rows: seq<Json>) returns (hashes: Hashes, noId: nat)
    ensures (hashes, noId) == RowHashes(fnv, rows)
  {
    hashes, noId := map[], 0;
    for i := 0 to |rows|
      invariant (hashes, noId) == RowHashes(fnv, rows[..i])
    {
      assert rows[..i + 1][..i] == rows[..i];
      match RowId(rows[i]) {
        case Some(id) => hashes := hashes[id := fnv(Encode(rows[i]))];
        case None => noId := noId + 1;
      }
    }
    assert rows[..|rows|] == rows;
  }

  /** Row i is the last one with its id. */
  ghost predicate LastOfItsId(rows: seq<Json>, i: int) {
    && 0 <= i < |rows| && RowId(rows[i]).Some?
    && forall j | i < j < |rows| :: RowId(rows[j]) != RowId(rows[i])
  }

  /** hashes maps exactly the ids that occur, each to the hash of the last row with it. */
  ghost predicate HashesLastRows(fnv: Bytes -> int, rows: seq<Json>, hashes: Hashes) {
    && (forall i | LastOfItsId(rows, i) ::
          RowId(rows[i]).value in hashes && hashes[RowId(rows[i]).value] == fnv(Encode(rows[i])))
    && (forall id | id in hashes :: Occurs(rows, id))
  }

  ghost predicate Occurs(rows: seq<Json>, id: Bytes) {
    exists i :: LastOfItsId(rows, i) && RowId(rows[i]) == Some(id)
  }

  lemma LastBeforeOneMore(rows: seq<Json>, i: int)
    requires 0 <= i < |rows| - 1
    ensures LastOfItsId(rows, i) <==> LastOfItsId(rows[..|rows| - 1], i) && RowId(rows[|rows| - 1]) != RowId(rows[i])
  {
    assert forall j | 0 <= j < |rows| - 1 :: rows[..|rows| - 1][j] == rows[j];
  }

  lemma {:induction false} RowHashesMeaning(fnv: Bytes -> int, rows: seq<Json>)
    ensures HashesLastRows(fnv, rows, RowHashes(fnv, rows).0)
  {
    if rows != [] {
      var n := |rows| - 1;
      RowHashesMeaning(fnv, rows[..n]);
      OneMoreRow(fnv, rows, RowHashes(fnv, rows[..n]).0, RowHashes(fnv, rows).0);
    }
  }

  lemma {:induction false} OneMoreRow(fnv: Bytes -> int, rows: seq<Json>, before: Hashes, hashes: Hashes)
    requires rows != [] && HashesLastRows(fnv, rows[..|rows| - 1], before)
    requires var n := |rows| - 1;
      hashes == if RowId(rows[n]).Some? then before[RowId(rows[n]).value := fnv(Encode(rows[n]))] else before
    ensures HashesLastRows(fnv, rows, hashes)
  {
    var n := |rows| - 1;
    forall i | LastOfItsId(rows, i)
      ensures RowId(rows[i]).value in hashes && hashes[RowId(rows[i]).value] == fnv(Encode(rows[i]))
    {
      if i < n { LastBeforeOneMore(rows, i); }
    }
    forall id | id in hashes ensures Occurs(rows, id) {
      if RowId(rows[n]) == Some(id) {
        assert LastOfItsId(rows, n);
      } else {
        assert Occurs(rows[..n], id);
        var i :| LastOfItsId(rows[..n], i) && RowId(rows[..n][i]) == Some(id);
        LastBeforeOneMore(rows, i);
      }
    }
  }

  function CommonIds(base: Hashes, updated: Hashes): set<Bytes> {
    set id | id in updated && id in base
  }

  function ChangedIds(base: Hashes, updated: Hashes): set<Bytes> {
    set id | id in updated && id in base && base[id] != updated[id]
  }

  /** The row is an object with a non-empty string under the key "id". */
  predicate HasId(row: Json) {
    && row.JObject? && [105, 100] in row.fields
    && row.fields[[105, 100]].JString? && |row.fields[[105, 100]].s| > 0
  }

  function WithoutId(rows: seq<Json>): set<nat> {
    set i: nat | i < |rows| && !HasId(rows[i])
  }

  /** Every row without an id is counted once. */
  lemma {:induction false} RowsWithoutIdCounted(fnv: Bytes -> int, rows: seq<Json>)
    ensures RowHashes(fnv, rows).1 == |WithoutId(rows)|
  {
    if rows != [] {
      var n := |rows| - 1;
      RowsWithoutIdCounted(fnv, rows[..n]);
      assert forall i: nat | i < n :: rows[..n][i] == rows[i];
      if HasId(rows[n]) {
        assert WithoutId(rows) == WithoutId(rows[..n]);
      } else {
        assert WithoutId(rows) == WithoutId(rows[..n]) + {n};
      }
    } else {
      assert WithoutId(rows) == {};
    }
  }

  function Ids(rows: seq<Json>): set<Bytes> {
    set i: nat | i < |rows| && HasId(rows[i]) :: rows[i].fields[[105, 100]].s
  }

  /** The tracked ids are exactly those that occur. */
  lemma {:induction false} RowIdsTracked(fnv: Bytes -> int, rows: seq<Json>)
    ensures RowHashes(fnv, rows).0.Keys == Ids(rows)
  {
    if rows != [] {
      var n := |rows| - 1;
      RowIdsTracked(fnv, rows[..n]);
      var before := rows[..n];
      assert forall i: nat | i < n :: before[i] == rows[i];
      forall id ensures id in Ids(rows) <==> id in Ids(before) || (HasId(rows[n]) && rows[n].fields[[105, 100]].s == id) {
        if id in Ids(before) {
          var i: nat :| i < n && HasId(before[i]) && before[i].fields[[105, 100]].s == id;
          assert HasId(rows[i]) && rows[i].fields[[105, 100]].s == id;
        }
        if id in Ids(rows) {
          var i: nat :| i < |rows| && HasId(rows[i]) && rows[i].fields[[105, 100]].s == id;
          if i < n { assert HasId(before[i]) && before[i].fields[[105, 100]].s == id; }
        }
      }
    }
  }

  method DiffRows(base: Hashes, updated: Hashes) returns (changed: nat, common: nat)
    ensures changed == |ChangedIds(base, updated)| && common == |CommonIds(base, updated)|
  {
    changed, common := 0, 0;
    var rest := updated.Keys;
    ghost var sameIds, changedIds: set<Bytes> := {}, {};
    while rest != {}
      invariant rest <= updated.Keys
      invariant sameIds == set id | id in updated.Keys - rest && id in base
      invariant changedIds == set id | id in updated.Keys - rest && id in base && base[id] != updated[id]
      invariant common == |sameIds| && changed == |changedIds|
      decreases rest
    {
      var id :| id in rest;
      rest := rest - {id};
      if id in base {
        common := common + 1;
        sameIds := sameIds + {id};
        if base[id] != updated[id] {
          changed := changed + 1;
          changedIds := changedIds + {id};
        }
      }
    }
    assert sameIds == CommonIds(base, updated) && changedIds == ChangedIds(base, updated);
  }

  // ----- thresholds

  function Percent(part: int, whole: int): real
    requires whole > 0
  {
    part as real / whole as real * 100.0
  }

  function TripReason(cfg: Config, baseline: Hashes, hashes: Hashes): Option<Reason>
    requires |baseline| > 0
  {
    var changed, common := |ChangedIds(baseline, hashes)|, |CommonIds(baseline, hashes)|;
    var removed := |baseline| - common;
    var percent := if common > 0 then Percent(changed, common) else 0.0;
    if changed >= cfg.minChangedRows && percent > cfg.maxChangePercent then Some(TooManyChanged(changed, common))
    else if removed >= cfg.minChangedRows && Percent(removed, |baseline|) > cfg.maxRemovePercent then
      Some(TooManyRemoved(removed, |baseline|))
    else None
  }

  predicate TooFewTracked(cfg: Config, hashes: Hashes, noId: nat) {
    noId > 0 && Percent(noId, noId + |hashes|) > cfg.maxRemovePercent
  }

  // ----- one Init call

  predicate Armed(armedUntil: Option<int>, now: int) {
    armedUntil.Some? && now < armedUntil.value
  }

  function Rearm(armedUntil: Option<int>, arms: seq<int>): Option<int> {
    if arms == [] then armedUntil else Some(arms[|arms| - 1] + ACCEPT_TTL)
  }

  function Alert(lastTripLog: Option<int>, force: bool, now: int): Option<int> {
    if force || lastTripLog.None? || now - lastTripLog.value > MINUTE then Some(now) else lastTripLog
  }

  predicate ShortCircuits(codec: Codec, s: State, data: Bytes, t: Timing) {
    s.held && !Armed(s.armedUntil, t.entry) && codec.fnv(data) == s.lastRejected
  }

  function InitStep(codec: Codec, cfg: Config, s: State, data: Bytes, tagged: bool, t: Timing): (State, Outcome) {
    if ShortCircuits(codec, s, data, t) then
      (s.(armedUntil := Rearm(s.armedUntil, t.armsBeforeCheck + t.armsBeforeConsume)), HeldUnchanged)
    else
      FullCheck(codec, cfg, s, data, tagged, t)
  }

  /** Init without the early return for a byte-identical rejected generation. */
  function FullCheck(codec: Codec, cfg: Config, s: State, data: Bytes, tagged: bool, t: Timing): (State, Outcome) {
    var atCheck := s.(armedUntil := Rearm(s.armedUntil, t.armsBeforeCheck));
    match codec.parse(data)
    case None => (Refused(atCheck, false, t), NotAnArray)
    case Some(rows) =>
      var (hashes, noId) := RowHashes(codec.fnv, rows);
      if TooFewTracked(cfg, hashes, noId) then (Refused(atCheck, false, t), RowsWithoutId)
      else CompareStep(codec, cfg, atCheck, data, hashes, tagged, t)
  }

  /** A refused payload changes nothing but the alert time and arms that come later. */
  function Refused(s: State, force: bool, t: Timing): State {
    s.(lastTripLog := Alert(s.lastTripLog, force, t.check), armedUntil := Rearm(s.armedUntil, t.armsBeforeConsume))
  }

  /** The comparison with the baseline, done under the lock. */
  function CompareStep(codec: Codec, cfg: Config, s: State, data: Bytes, hashes: Hashes, tagged: bool, t: Timing)
    : (State, Outcome)
  {
    var reason := if |s.baseline| > 0 && !Armed(s.armedUntil, t.check)
                  then TripReason(cfg, s.baseline, hashes) else None;
    if reason.Some? then
      (Refused(s, !s.held, t).(held := true,
                               heldSince := if s.held then s.heldSince else Some(t.check),
                               tripReason := reason,
                               lastRejected := codec.fnv(data)), Tripped(reason.value))
    else if IsBootstrapReplay(s, hashes, tagged) then
      (s.(armedUntil := None, served := Some(data)), Replayed)
    else
      (State(hashes, 0, None, None, false,
             if s.held then None else s.heldSince,
             if s.held then None else s.tripReason, Some(data)), Accepted)
  }

  predicate IsBootstrapReplay(s: State, hashes: Hashes, tagged: bool) {
    && !tagged && s.held && s.served.None?
    && |ChangedIds(s.baseline, hashes)| == 0 && |CommonIds(s.baseline, hashes)| == |hashes|
  }

  function Initial(codec: Codec, cache: Option<Bytes>): State {
    var baseline := if cache.Some? && codec.parse(cache.value).Some?
                    then RowHashes(codec.fnv, codec.parse(cache.value).value).0 else map[];
    State(baseline, 0, None, None, false, None, None, None)
  }

  class BreakerRepositoryData {
    const codec: Codec
    const cfg: Config
    var baseline: Hashes
    var lastRejected: int
    var lastTripLog: Option<int>
    var acceptArmedUntil: Option<int>
    var held: bool
    var heldSince: Option<int>
    var tripReason: Option<Reason>
    var data: Option<Bytes>

    ghost function View(): State
      reads this
    {
      State(baseline, lastRejected, lastTripLog, acceptArmedUntil, held, heldSince, tripReason, data)
    }

    constructor (codec: Codec, cfg: Config, cache: Option<Bytes>)
      ensures this.codec == codec && this.cfg == cfg
      ensures View() == Initial(codec, cache)
    {
      this.codec, this.cfg := codec, cfg;
      baseline, lastRejected, lastTripLog, acceptArmedUntil := map[], 0, None, None;
      held, heldSince, tripReason, data := false, None, None, None;
      new;
      if cache.Some? && codec.parse(cache.value).Some? {
        var hashes, noId := HashRows(codec.fnv, codec.parse(cache.value).value);
        baseline := hashes;
      }
    }

    method AcceptNext(now: int) returns (until: int)
      modifies this`acceptArmedUntil
      ensures View() == old(View()).(armedUntil := Some(until)) && until == now + ACCEPT_TTL
    {
      until := now + ACCEPT_TTL;
      acceptArmedUntil := Some(until);
    }

    /** AcceptNext calls that other goroutines make while Init runs. */
    method Interleave(arms: seq<int>)
      modifies this`acceptArmedUntil
      ensures View() == old(View()).(armedUntil := Rearm(old(acceptArmedUntil), arms))
    {
      for i := 0 to |arms|
        invariant acceptArmedUntil == Rearm(old(acceptArmedUntil), arms[..i])
      {
        var _ := AcceptNext(arms[i]);
      }
      assert arms[..|arms|] == arms;
    }

    /** The payload is None when reading it fails. It comes with a tag when it was fetched and
        its answer carried a usable one; the cached file never does. */
    method Init(read: Option<Bytes>, tagged: bool, t: Timing) returns (outcome: Outcome)
      modifies this
      ensures read.None? ==> outcome == ReadFailed && View() == old(View())
      ensures read.Some? ==> (View(), outcome) == InitStep(codec, cfg, old(View()), read.value, tagged, t)
    {
      if read.None? { return ReadFailed; }
      var payload := read.value;
      if held && !Armed(acceptArmedUntil, t.entry) && codec.fnv(payload) == lastRejected {
        Interleave(t.armsBeforeCheck + t.armsBeforeConsume);
        return HeldUnchanged;
      }
      Interleave(t.armsBeforeCheck);
      var rows := codec.parse(payload);
      if rows.None? {
        outcome := Reject(NotAnArray, t);
        return;
      }
      var hashes, noId := HashRows(codec.fnv, rows.value);
      if noId > 0 && Percent(noId, noId + |hashes|) > cfg.maxRemovePercent {
        outcome := Reject(RowsWithoutId, t);
        return;
      }
      outcome := Compare(payload, hashes, tagged, t);
    }

    method Compare(payload: Bytes, hashes: Hashes, tagged: bool, t: Timing) returns (outcome: Outcome)
      modifies this
      ensures (View(), outcome) == CompareStep(codec, cfg, old(View()), payload, hashes, tagged, t)
    {
      var changed, common := DiffRows(baseline, hashes);
      if |baseline| > 0 && !Armed(acceptArmedUntil, t.check) {
        var reason := Thresholds(hashes, changed, common);
        if reason.Some? {
          outcome := Trip(reason.value, codec.fnv(payload), t);
          return;
        }
      }
      outcome := Store(payload, hashes, tagged, changed == 0 && common == |hashes|, t);
    }

    method Thresholds(hashes: Hashes, changed: nat, common: nat) returns (reason: Option<Reason>)
      requires |baseline| > 0
      requires changed == |ChangedIds(baseline, hashes)| && common == |CommonIds(baseline, hashes)|
      ensures reason == TripReason(cfg, baseline, hashes)
    {
      var percent := 0.0;
      if common > 0 { percent := Percent(changed, common); }
      var removed := |baseline| - common;
      var removedPercent := Percent(removed, |baseline|);
      reason := None;
      if changed >= cfg.minChangedRows && percent > cfg.maxChangePercent {
        reason := Some(TooManyChanged(changed, common));
      } else if removed >= cfg.minChangedRows && removedPercent > cfg.maxRemovePercent {
        reason := Some(TooManyRemoved(removed, |baseline|));
      }
    }

    method Trip(reason: Reason, payloadHash: int, t: Timing) returns (outcome: Outcome)
      modifies this
      ensures outcome == Tripped(reason)
      ensures View() == Refused(old(View()), !old(held), t).(
        held := true,
        heldSince := if old(held) then old(heldSince) else Some(t.check),
        tripReason := Some(reason),
        lastRejected := payloadHash)
    {
      var transition := !held;
      held := true;
      if transition { heldSince := Some(t.check); }
      tripReason := Some(reason);
      lastTripLog := Alert(lastTripLog, transition, t.check);
      lastRejected := payloadHash;
      Interleave(t.armsBeforeConsume);
      outcome := Tripped(reason);
    }

    method Store(payload: Bytes, hashes: Hashes, tagged: bool, zeroDiff: bool, t: Timing) returns (outcome: Outcome)
      modifies this
      ensures if !tagged && old(held) && old(data).None? && zeroDiff
        then outcome == Replayed && View() == old(View()).(armedUntil := None, served := Some(payload))
        else outcome == Accepted && View() == State(hashes, 0, None, None, false,
               if old(held) then None else old(heldSince), if old(held) then None else old(tripReason), Some(payload))
    {
      Interleave(t.armsBeforeConsume);
      acceptArmedUntil := None;
      if !tagged && held && data.None? && zeroDiff {
        data := Some(payload);
        return Replayed;
      }
      baseline := hashes;
      lastRejected := 0;
      lastTripLog := None;
      if held {
        held, heldSince, tripReason := false, None, None;
      }
      data := Some(payload);
      outcome := Accepted;
    }

    /** The validity rejection: it pages, and changes nothing else. */
    method Reject(why: Outcome, t: Timing) returns (outcome: Outcome)
      modifies this
      ensures outcome == why
      ensures View() == Refused(old(View()), false, t)
    {
      lastTripLog := Alert(lastTripLog, false, t.check);
      Interleave(t.armsBeforeConsume);
      outcome := why;
    }
  }
}
