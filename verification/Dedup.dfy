/** Deduplication of a batch of events at ingest: an event is dropped when the last kept
    event with the same content is within the window. */
module Dedup {

  import opened Common

  /** What two events must share to be duplicates. */
  datatype Key = Key(anonymousId: string, userId: string, kind: string, event: string, parameters: string, traits: string)

  /** `time` is the parsed timestamp in nanoseconds, if there is one; `rest` everything else. */
  datatype Event = Event(key: Key, time: Option<int>, rest: string)

  const MAX_DURATION: int := 0x7fff_ffff_ffff_ffff

  /** Differences of timestamps saturate. */
  function Sub(a: int, b: int): int {
    if a - b > MAX_DURATION then MAX_DURATION else if a - b < -MAX_DURATION - 1 then -MAX_DURATION - 1 else a - b
  }

  /** Whole milliseconds, truncated toward zero. */
  function Milliseconds(d: int): int { if d >= 0 then d / 1_000_000 else -(-d / 1_000_000) }

  function Abs(x: int): int { if x < 0 then -x else x }

  predicate Within(a: int, b: int, gapMs: int) { Abs(Milliseconds(Sub(a, b))) <= gapMs }

  /** In true time, the window reaches up to, but not including, one millisecond more than
      the configured gap; a negative gap disables it, and one at which differences saturate
      lets nothing be apart. */
  lemma WithinMeaning(a: int, b: int, gapMs: int)
    ensures Within(a, b, gapMs) <==>
      gapMs >= MAX_DURATION / 1_000_000 || (gapMs >= 0 && Abs(a - b) < (gapMs + 1) * 1_000_000)
  {
  }

  predicate Keeps(seen: map<Key, int>, e: Event, gapMs: int) {
    e.time.None? || e.key !in seen || !Within(e.time.value, seen[e.key], gapMs)
  }

  /** After a batch: the timestamp last kept for each key. */
  function Seen(batch: seq<Event>, gapMs: int): map<Key, int> {
    if batch == [] then map[]
    else
      var before, e := Seen(batch[..|batch| - 1], gapMs), batch[|batch| - 1];
      if e.time.Some? && Keeps(before, e, gapMs) then before[e.key := e.time.value] else before
  }

  function Result(batch: seq<Event>, gapMs: int): seq<Event> {
    if batch == [] then []
    else
      var n := |batch| - 1;
      Result(batch[..n], gapMs) + if Keeps(Seen(batch[..n], gapMs), batch[n], gapMs) then [batch[n]] else []
  }

  method DeduplicateBatch(batch: seq<Event>, gapMs: int) returns (result: seq<Event>)
    ensures result == Result(batch, gapMs)
  {
    if |batch| <= 1 {
      assert |batch| == 1 ==> batch[..0] == [] && batch == [batch[0]];
      return batch;
    }
    var seen: map<Key, int> := map[];
    result := [];
    for i := 0 to |batch|
      invariant seen == Seen(batch[..i], gapMs) && result == Result(batch[..i], gapMs)
    {
      assert batch[..i + 1][..i] == batch[..i];
      var e := batch[i];
      if e.time.None? {
        result := result + [e];
        continue;
      }
      if e.key in seen {
        var diff := Abs(Milliseconds(Sub(e.time.value, seen[e.key])));
        if diff <= gapMs { continue; }
      }
      seen := seen[e.key := e.time.value];
      result := result + [e];
    }
    assert batch[..|batch|] == batch;
  }

  // ----- which events are kept

  predicate IsKept(batch: seq<Event>, gapMs: int, i: nat)
    requires i < |batch|
  {
    Keeps(Seen(batch[..i], gapMs), batch[i], gapMs)
  }

  /** Kept, with a timestamp, and of the given key. */
  predicate IsKeptOf(batch: seq<Event>, gapMs: int, key: Key, i: nat)
    requires i < |batch|
  {
    batch[i].key == key && batch[i].time.Some? && IsKept(batch, gapMs, i)
  }

  ghost predicate LastKept(batch: seq<Event>, gapMs: int, key: Key, upTo: nat, j: nat)
    requires upTo <= |batch|
  {
    j < upTo && IsKeptOf(batch, gapMs, key, j) && forall i | j < i < upTo :: !IsKeptOf(batch, gapMs, key, i)
  }

  /** What is remembered of a key is its last kept event. */
  lemma {:induction false} SeenIsLastKept(batch: seq<Event>, gapMs: int, key: Key, upTo: nat) returns (j: nat)
    requires upTo <= |batch|
    ensures key in Seen(batch[..upTo], gapMs) ==>
      LastKept(batch, gapMs, key, upTo, j) && batch[j].time == Some(Seen(batch[..upTo], gapMs)[key])
    ensures key !in Seen(batch[..upTo], gapMs) ==> forall i: nat | i < upTo :: !IsKeptOf(batch, gapMs, key, i)
  {
    j := 0;
    if upTo > 0 {
      var n := upTo - 1;
      assert batch[..upTo][..n] == batch[..n];
      j := SeenIsLastKept(batch, gapMs, key, n);
      if IsKeptOf(batch, gapMs, key, n) { j := n; }
    }
  }

  /** The kept positions among the first n, in order. */
  function KeptPositions(batch: seq<Event>, gapMs: int, n: nat): seq<nat>
    requires n <= |batch|
  {
    if n == 0 then []
    else KeptPositions(batch, gapMs, n - 1) + if IsKept(batch, gapMs, n - 1) then [n - 1] else []
  }

  lemma {:induction false} KeptPositionsMeaning(batch: seq<Event>, gapMs: int, n: nat)
    requires n <= |batch|
    ensures var at := KeptPositions(batch, gapMs, n);
      && (forall k, l | 0 <= k < l < |at| :: at[k] < at[l])
      && (forall i: nat :: i in at <==> i < n && IsKept(batch, gapMs, i))
  {
    if n > 0 {
      KeptPositionsMeaning(batch, gapMs, n - 1);
      var before := KeptPositions(batch, gapMs, n - 1);
      forall k | 0 <= k < |before| ensures before[k] < n - 1 { assert before[k] in before; }
    }
  }

  /** The result is the batch without the events that are not kept, in order. */
  lemma {:induction false} ResultIsSubsequence(batch: seq<Event>, gapMs: int, n: nat)
    requires n <= |batch|
    ensures var at, result := KeptPositions(batch, gapMs, n), Result(batch[..n], gapMs);
      && |at| == |result|
      && forall k | 0 <= k < |at| :: at[k] < |batch| && batch[at[k]] == result[k]
  {
    if n > 0 {
      ResultIsSubsequence(batch, gapMs, n - 1);
      assert batch[..n][..n - 1] == batch[..n - 1];
    }
  }

  /** An event is dropped only for the last kept event of its key, an earlier one within the
      window of it. */
  lemma DroppedHasEarlierKept(batch: seq<Event>, gapMs: int, i: nat) returns (j: nat)
    requires i < |batch| && !IsKept(batch, gapMs, i)
    ensures batch[i].time.Some? && LastKept(batch, gapMs, batch[i].key, i, j)
    ensures Within(batch[i].time.value, batch[j].time.value, gapMs)
  {
    j := SeenIsLastKept(batch, gapMs, batch[i].key, i);
  }

  /** Consecutive kept events of one key are further apart than the window. */
  lemma ConsecutiveKeptAreApart(batch: seq<Event>, gapMs: int, j: nat, i: nat)
    requires i < |batch| && IsKept(batch, gapMs, i) && batch[i].time.Some?
    requires LastKept(batch, gapMs, batch[i].key, i, j)
    ensures !Within(batch[i].time.value, batch[j].time.value, gapMs)
  {
    var last := SeenIsLastKept(batch, gapMs, batch[i].key, i);
    assert last == j;
  }

  /** The two together: an event is kept if and only if it has no timestamp, or no earlier
      kept event of its key, or is further than the window from the last one. */
  lemma KeptIff(batch: seq<Event>, gapMs: int, i: nat)
    requires i < |batch|
    ensures IsKept(batch, gapMs, i) <==>
            (batch[i].time.Some? ==>
               forall j: nat | j < i :: LastKept(batch, gapMs, batch[i].key, i, j)
                                        ==> !Within(batch[i].time.value, batch[j].time.value, gapMs))
  {
    if !IsKept(batch, gapMs, i) {
      var j := DroppedHasEarlierKept(batch, gapMs, i);
    } else if batch[i].time.Some? {
      forall j: nat | j < i && LastKept(batch, gapMs, batch[i].key, i, j)
        ensures !Within(batch[i].time.value, batch[j].time.value, gapMs)
      {
        ConsecutiveKeptAreApart(batch, gapMs, j, i);
      }
    }
  }

  /** Running it again changes nothing. */
  lemma {:induction false} DedupIsIdempotent(batch: seq<Event>, gapMs: int)
    ensures Seen(Result(batch, gapMs), gapMs) == Seen(batch, gapMs)
    ensures Result(Result(batch, gapMs), gapMs) == Result(batch, gapMs)
  {
    if batch != [] {
      var n := |batch| - 1;
      var before := Result(batch[..n], gapMs);
      DedupIsIdempotent(batch[..n], gapMs);
      if IsKept(batch, gapMs, n) {
        assert (before + [batch[n]])[..|before|] == before;
      } else {
        assert Result(batch, gapMs) == before;
      }
    }
  }

  // ----- pairs that are not neighbours

  predicate Timed(batch: seq<Event>, key: Key, i: nat)
    requires i < |batch|
  {
    batch[i].key == key && batch[i].time.Some?
  }

  /** The third timestamp comes back into the window of the first, the second being outside
      the windows of both. */
  predicate Returns(a: int, b: int, c: int, gapMs: int) {
    !Within(b, a, gapMs) && !Within(c, b, gapMs) && Within(c, a, gapMs)
  }

  /** No event comes back into the window of one it had left. */
  ghost predicate NoReturn(batch: seq<Event>, gapMs: int, key: Key) {
    forall i: nat, j: nat, k: nat | i < j < k < |batch| && Timed(batch, key, i) && Timed(batch, key, j) && Timed(batch, key, k) ::
      !Returns(batch[i].time.value, batch[j].time.value, batch[k].time.value, gapMs)
  }

  /** Then any two kept events of the key are further apart than the window. */
  lemma {:induction false} KeptArePairwiseApart(batch: seq<Event>, gapMs: int, key: Key, i: nat, k: nat)
    requires NoReturn(batch, gapMs, key) && i < k < |batch|
    requires IsKeptOf(batch, gapMs, key, i) && IsKeptOf(batch, gapMs, key, k)
    ensures !Within(batch[k].time.value, batch[i].time.value, gapMs)
    decreases k
  {
    var j := SeenIsLastKept(batch, gapMs, key, k);
    assert LastKept(batch, gapMs, key, k, j) && i <= j;
    ConsecutiveKeptAreApart(batch, gapMs, j, k);
    if i < j {
      KeptArePairwiseApart(batch, gapMs, key, i, j);
      assert Timed(batch, key, i) && Timed(batch, key, j) && Timed(batch, key, k);
    }
  }

  /** Timestamps that never go back within a key are such a case. */
  lemma {:induction false} OrderedHasNoReturn(batch: seq<Event>, gapMs: int, key: Key)
    requires forall i: nat, j: nat | i < j < |batch| && Timed(batch, key, i) && Timed(batch, key, j) ::
               batch[i].time.value <= batch[j].time.value
    ensures NoReturn(batch, gapMs, key)
  {
    forall i: nat, j: nat, k: nat | i < j < k < |batch| && Timed(batch, key, i) && Timed(batch, key, j) && Timed(batch, key, k)
      ensures !Returns(batch[i].time.value, batch[j].time.value, batch[k].time.value, gapMs)
    {
      WithinMeaning(batch[j].time.value, batch[i].time.value, gapMs);
      WithinMeaning(batch[k].time.value, batch[i].time.value, gapMs);
    }
  }

  lemma ThreeKeptIff(a: Event, b: Event, c: Event, gapMs: int)
    requires a.key == b.key == c.key && a.time.Some? && b.time.Some? && c.time.Some?
    ensures Result([a, b, c], gapMs) == [a, b, c]
       <==> !Within(b.time.value, a.time.value, gapMs) && !Within(c.time.value, b.time.value, gapMs)
  {
    hide Within;
    var batch := [a, b, c];
    assert batch[..2] == [a, b] && batch[..2][..1] == [a] && [a][..0] == [];
    assert Seen([a], gapMs) == map[a.key := a.time.value] && Result([a], gapMs) == [a];
    if !Within(b.time.value, a.time.value, gapMs) {
      assert Result([a, b], gapMs) == [a, b] && Seen([a, b], gapMs) == map[a.key := b.time.value];
    } else {
      assert |Result([a, b], gapMs)| == 1;
    }
  }

  /** All are kept, with the outer two within the window, exactly when the last comes back. */
  lemma ReturningEventIsKeptIff(a: Event, b: Event, c: Event, gapMs: int)
    requires a.key == b.key == c.key && a.time.Some? && b.time.Some? && c.time.Some?
    ensures Result([a, b, c], gapMs) == [a, b, c] && Within(c.time.value, a.time.value, gapMs)
       <==> Returns(a.time.value, b.time.value, c.time.value, gapMs)
  {
    hide Within, Result;
    ThreeKeptIff(a, b, c, gapMs);
  }

  ghost predicate PairwiseApart(batch: seq<Event>, gapMs: int, key: Key) {
    forall i: nat, k: nat | i < k < |batch| && IsKeptOf(batch, gapMs, key, i) && IsKeptOf(batch, gapMs, key, k) ::
      !Within(batch[k].time.value, batch[i].time.value, gapMs)
  }

  predicate Increasing(at: seq<nat>, n: nat) {
    (forall k, l | 0 <= k < l < |at| :: at[k] < at[l]) && forall k | 0 <= k < |at| :: at[k] < n
  }

  /** The events at the given positions, as a batch of their own. */
  function Select(batch: seq<Event>, at: seq<nat>): (s: seq<Event>)
    requires Increasing(at, |batch|)
    ensures |s| == |at| && forall k | 0 <= k < |at| :: s[k] == batch[at[k]]
  {
    seq(|at|, k requires 0 <= k < |at| => batch[at[k]])
  }

  lemma {:induction false} SelectionHasNoReturn(batch: seq<Event>, gapMs: int, key: Key, at: seq<nat>)
    requires Increasing(at, |batch|) && NoReturn(batch, gapMs, key)
    ensures PairwiseApart(Select(batch, at), gapMs, key)
  {
    hide Returns;
    var sub := Select(batch, at);
    forall i: nat, j: nat, k: nat | i < j < k < |sub| && Timed(sub, key, i) && Timed(sub, key, j) && Timed(sub, key, k)
      ensures !Returns(sub[i].time.value, sub[j].time.value, sub[k].time.value, gapMs)
    {
      assert Timed(batch, key, at[i]) && Timed(batch, key, at[j]) && Timed(batch, key, at[k]);
    }
    assert NoReturn(sub, gapMs, key);
    forall i: nat, k: nat | i < k < |sub| && IsKeptOf(sub, gapMs, key, i) && IsKeptOf(sub, gapMs, key, k)
      ensures !Within(sub[k].time.value, sub[i].time.value, gapMs)
    {
      KeptArePairwiseApart(sub, gapMs, key, i, k);
    }
  }

  lemma {:induction false} ReturnLeavesPair(batch: seq<Event>, gapMs: int, key: Key, i: nat, j: nat, k: nat)
    requires i < j < k < |batch| && Timed(batch, key, i) && Timed(batch, key, j) && Timed(batch, key, k)
    requires Returns(batch[i].time.value, batch[j].time.value, batch[k].time.value, gapMs)
    ensures !PairwiseApart(Select(batch, [i, j, k]), gapMs, key)
  {
    var a, b, c := batch[i], batch[j], batch[k];
    var sub := Select(batch, [i, j, k]);
    assert sub == [a, b, c];
    hide Within, Returns, IsKept;
    ReturningEventIsKeptIff(a, b, c, gapMs);
    AllKept(sub, gapMs, 3);
    assert sub[..3] == sub;
    assert IsKeptOf(sub, gapMs, key, 0) && IsKeptOf(sub, gapMs, key, 2);
  }

  lemma {:induction false} AllKept(batch: seq<Event>, gapMs: int, n: nat)
    requires n <= |batch|
    ensures |Result(batch[..n], gapMs)| <= n
    ensures |Result(batch[..n], gapMs)| == n ==> forall i: nat | i < n :: IsKept(batch, gapMs, i)
  {
    if n > 0 {
      AllKept(batch, gapMs, n - 1);
      assert batch[..n][..n - 1] == batch[..n - 1];
    }
  }

  lemma FindReturn(batch: seq<Event>, gapMs: int, key: Key) returns (i: nat, j: nat, k: nat)
    requires !NoReturn(batch, gapMs, key)
    ensures i < j < k < |batch| && Timed(batch, key, i) && Timed(batch, key, j) && Timed(batch, key, k)
    ensures Returns(batch[i].time.value, batch[j].time.value, batch[k].time.value, gapMs)
  {
    hide Returns;
    i, j, k :| i < j < k < |batch| && Timed(batch, key, i) && Timed(batch, key, j) && Timed(batch, key, k)
      && Returns(batch[i].time.value, batch[j].time.value, batch[k].time.value, gapMs);
  }

  /** Kept events of a key are pairwise further apart than the window, in the batch and in
      every selection of its events, if and only if no event comes back. */
  lemma {:induction false} PairwiseApartIff(batch: seq<Event>, gapMs: int, key: Key)
    ensures NoReturn(batch, gapMs, key)
       <==> forall at | Increasing(at, |batch|) :: PairwiseApart(Select(batch, at), gapMs, key)
  {
    hide Returns, PairwiseApart, NoReturn, Timed;
    if NoReturn(batch, gapMs, key) {
      forall at | Increasing(at, |batch|) ensures PairwiseApart(Select(batch, at), gapMs, key) {
        SelectionHasNoReturn(batch, gapMs, key, at);
      }
    } else {
      var i, j, k := FindReturn(batch, gapMs, key);
      ReturnLeavesPair(batch, gapMs, key, i, j, k);
      assert Increasing([i, j, k], |batch|);
    }
  }
}
