/** Where the reprocessing worker sends one event: the stream's rule, in override or filter
    mode, combined with the connections the repository maps the stream to. */
module Routing {

  import opened Common
  import opened Selector
  import Reprocess

  // ----- resolving a rule against the mapped connections

  function Without(ids: seq<string>, dropped: string): seq<string> {
    if ids == [] then []
    else Without(ids[..|ids| - 1], dropped) + if ids[|ids| - 1] == dropped then [] else [ids[|ids| - 1]]
  }

  function Kept(ids: seq<string>, allowed: seq<string>): seq<string> {
    if ids == [] then []
    else Kept(ids[..|ids| - 1], allowed) + if ids[|ids| - 1] in allowed then [ids[|ids| - 1]] else []
  }

  /** First occurrences only. */
  function Deduplicated(ids: seq<string>): seq<string> {
    if ids == [] then []
    else Deduplicated(ids[..|ids| - 1]) + if ids[|ids| - 1] in ids[..|ids| - 1] then [] else [ids[|ids| - 1]]
  }

  function Resolved(rule: Option<seq<string>>, filter: bool, mapped: seq<string>): seq<string> {
    if rule.None? then mapped
    else
      var explicit := Without(rule.value, WILDCARD);
      if filter then (if WILDCARD in rule.value then mapped else Kept(mapped, explicit))
      else if WILDCARD !in rule.value then explicit
      else Deduplicated(mapped + explicit)
  }

  method ResolveConnections(rule: Option<seq<string>>, filter: bool, mapped: seq<string>) returns (ids: seq<string>)
    ensures ids == Resolved(rule, filter, mapped)
  {
    if rule.None? { return mapped; }
    var explicit: seq<string>, allMapped := [], false;
    for i := 0 to |rule.value|
      invariant explicit == Without(rule.value[..i], WILDCARD)
      invariant allMapped == (WILDCARD in rule.value[..i])
    {
      assert rule.value[..i + 1][..i] == rule.value[..i];
      if rule.value[i] == WILDCARD {
        allMapped := true;
        continue;
      }
      explicit := explicit + [rule.value[i]];
    }
    assert rule.value[..|rule.value|] == rule.value;
    if filter {
      if allMapped { return mapped; }
      ids := FilterMapped(mapped, explicit);
    } else if !allMapped {
      ids := explicit;
    } else {
      ids := Deduplicate(mapped + explicit);
    }
  }

  method FilterMapped(mapped: seq<string>, explicit: seq<string>) returns (kept: seq<string>)
    ensures kept == Kept(mapped, explicit)
  {
    var allowed: set<string> := {};
    for i := 0 to |explicit|
      invariant forall id :: id in allowed <==> id in explicit[..i]
    {
      allowed := allowed + {explicit[i]};
    }
    kept := [];
    for i := 0 to |mapped|
      invariant kept == Kept(mapped[..i], explicit)
    {
      assert mapped[..i + 1][..i] == mapped[..i];
      if mapped[i] in allowed { kept := kept + [mapped[i]]; }
    }
    assert mapped[..|mapped|] == mapped;
  }

  method Deduplicate(all: seq<string>) returns (out: seq<string>)
    ensures out == Deduplicated(all)
  {
    var seen: set<string> := {};
    out := [];
    for i := 0 to |all|
      invariant forall id :: id in seen <==> id in all[..i]
      invariant out == Deduplicated(all[..i])
    {
      assert all[..i + 1][..i] == all[..i];
      if all[i] !in seen {
        seen := seen + {all[i]};
        out := out + [all[i]];
      }
    }
    assert all[..|all|] == all;
  }

  // ----- what resolving means

  lemma {:induction false} WithoutMeaning(ids: seq<string>, dropped: string)
    ensures forall id :: id in Without(ids, dropped) <==> id in ids && id != dropped
  {
    if ids != [] {
      WithoutMeaning(ids[..|ids| - 1], dropped);
      assert ids == ids[..|ids| - 1] + [ids[|ids| - 1]];
    }
  }

  lemma {:induction false} KeptMeaning(ids: seq<string>, allowed: seq<string>)
    ensures forall id :: id in Kept(ids, allowed) <==> id in ids && id in allowed
  {
    if ids != [] {
      KeptMeaning(ids[..|ids| - 1], allowed);
      assert ids == ids[..|ids| - 1] + [ids[|ids| - 1]];
    }
  }

  predicate Distinct(ids: seq<string>) {
    forall i, j | 0 <= i < j < |ids| :: ids[i] != ids[j]
  }

  lemma {:induction false} DeduplicatedMeaning(ids: seq<string>)
    ensures forall id :: id in Deduplicated(ids) <==> id in ids
    ensures Distinct(Deduplicated(ids))
  {
    if ids != [] {
      DeduplicatedMeaning(ids[..|ids| - 1]);
      assert ids == ids[..|ids| - 1] + [ids[|ids| - 1]];
    }
  }

  /** Mapped connections come before the explicit ones, each group in its own order. */
  lemma {:induction false} DeduplicatedOrder(a: seq<string>, b: seq<string>)
    ensures |Deduplicated(a)| <= |Deduplicated(a + b)| && Deduplicated(a + b)[..|Deduplicated(a)|] == Deduplicated(a)
    decreases |b|
  {
    if b == [] {
      assert a + b == a;
    } else {
      DeduplicatedOrder(a, b[..|b| - 1]);
      assert (a + b)[..|a + b| - 1] == a + b[..|b| - 1];
    }
  }

  /** An event goes to a connection exactly when the rule says so: no rule, all mapped ones;
      filter mode, the mapped ones that are listed or admitted by "*"; override mode, the
      listed ones, plus the mapped ones for "*". */
  lemma ResolvedMeaning(rule: Option<seq<string>>, filter: bool, mapped: seq<string>, id: string)
    ensures id in Resolved(rule, filter, mapped) <==>
            match rule
            case None => id in mapped
            case Some(listed) =>
              if filter then id in mapped && (id in listed || WILDCARD in listed)
              else (id in listed && id != WILDCARD) || (id in mapped && WILDCARD in listed)
    ensures rule.Some? && !filter && WILDCARD in rule.value ==> Distinct(Resolved(rule, filter, mapped))
  {
    if rule.Some? {
      var explicit := Without(rule.value, WILDCARD);
      WithoutMeaning(rule.value, WILDCARD);
      KeptMeaning(mapped, explicit);
      DeduplicatedMeaning(mapped + explicit);
    }
  }

  // ----- routing an event

  datatype Reason = NoReason | NoSourceId | StreamNotFound | NoDestinations | NoConnections

  datatype Routed = Routed(ids: seq<string>, deliberate: bool, reason: Reason)

  /** The repository: a stream's asynchronous destinations, by id or slug. */
  type Repository = string -> Option<seq<string>>

  predicate NeedsMapped(rule: Option<seq<string>>, filter: bool) {
    rule.None? || filter || WILDCARD in rule.value
  }

  function Mapped(streams: Repository, sourceId: string, slug: string): (seq<string>, Reason) {
    var streamId := if sourceId == "" then slug else sourceId;
    if streamId == "" then ([], NoSourceId)
    else if streams(streamId).None? then ([], StreamNotFound)
    else if streams(streamId).value == [] then ([], NoDestinations)
    else (streams(streamId).value, NoReason)
  }

  function Decide(rule: Option<seq<string>>, filter: bool, mapped: seq<string>, reason: Reason): Routed {
    var ids := Resolved(rule, filter, mapped);
    if ids != [] then Routed(ids, false, NoReason)
    else if rule.Some? then Routed([], true, reason)
    else Routed([], false, if reason == NoReason then NoConnections else reason)
  }

  function RouteEvent(rules: Rules, filter: bool, streams: Option<Repository>, sourceId: string, slug: string): Routed {
    var rule := Lookup(rules, sourceId, slug);
    var (mapped, reason) := if NeedsMapped(rule, filter) && streams.Some? then Mapped(streams.value, sourceId, slug)
                            else ([], NoReason);
    Decide(rule, filter, mapped, reason)
  }

  method RouteOneEvent(rules: Rules, filter: bool, streams: Option<Repository>, sourceId: string, slug: string)
    returns (ids: seq<string>, deliberate: bool, reason: Reason)
    ensures Routed(ids, deliberate, reason) == RouteEvent(rules, filter, streams, sourceId, slug)
  {
    var rule := Lookup(rules, sourceId, slug);
    var mapped: seq<string> := [];
    reason := NoReason;
    var needed := MappedNeeded(rule, filter);
    if needed && streams.Some? {
      var streamId := sourceId;
      if streamId == "" { streamId := slug; }
      if streamId == "" {
        reason := NoSourceId;
      } else {
        var found := streams.value(streamId);
        if found.None? {
          reason := StreamNotFound;
        } else if |found.value| == 0 {
          reason := NoDestinations;
        } else {
          mapped := found.value;
        }
      }
    }
    ids := ResolveConnections(rule, filter, mapped);
    if |ids| > 0 { return ids, false, NoReason; }
    if rule.Some? { return [], true, reason; }
    if reason == NoReason { reason := NoConnections; }
    return [], false, reason;
  }

  method MappedNeeded(rule: Option<seq<string>>, filter: bool) returns (needed: bool)
    ensures needed == NeedsMapped(rule, filter)
  {
    if rule.None? || filter { return true; }
    for i := 0 to |rule.value|
      invariant WILDCARD !in rule.value[..i]
    {
      if rule.value[i] == WILDCARD { return true; }
    }
    return false;
  }

  /** Leaving the repository unasked changes nothing: the event goes to the same places, and
      is dropped as deliberately, as if its mapped connections had always been fetched. */
  lemma UnaskedRepositoryIsIrrelevant(rules: Rules, filter: bool, streams: Repository, sourceId: string, slug: string)
    ensures var routed := RouteEvent(rules, filter, Some(streams), sourceId, slug);
      var asked := Decide(Lookup(rules, sourceId, slug), filter, Mapped(streams, sourceId, slug).0, Mapped(streams, sourceId, slug).1);
      routed.ids == asked.ids && routed.deliberate == asked.deliberate
  {
    var rule := Lookup(rules, sourceId, slug);
    if !NeedsMapped(rule, filter) {
      assert Resolved(rule, filter, []) == Resolved(rule, filter, Mapped(streams, sourceId, slug).0);
    }
  }

  /** The outcome the counters see. */
  function Outcome(r: Routed): Reprocess.Route {
    if r.ids != [] then Reprocess.Deliver else if r.deliberate then Reprocess.DropByRule else Reprocess.NoRoute
  }

  /** An event goes uncounted as an error only when a rule names it: a stream without a rule
      is delivered if the repository maps it somewhere, and is an error otherwise. */
  lemma DropsAreDeliberate(rules: Rules, filter: bool, streams: Option<Repository>, sourceId: string, slug: string)
    ensures var routed := RouteEvent(rules, filter, streams, sourceId, slug);
      var rule := Lookup(rules, sourceId, slug);
      && (Outcome(routed).DropByRule? <==> rule.Some? && routed.ids == [])
      && (Outcome(routed).NoRoute? <==>
          rule.None? && (streams.None? || Mapped(streams.value, sourceId, slug).0 == []))
      && (Outcome(routed).NoRoute? ==> routed.reason != NoReason)
      && (routed.ids != [] ==> !routed.deliberate && routed.reason == NoReason)
  {
  }

  /** A selector that went through the admin routes every event as the original would. */
  lemma ForwardingKeepsRoutes(v: Json, filter: bool, streams: Option<Repository>, sourceId: string, slug: string)
    requires Unmarshal(v).Some?
    ensures RouteEvent(RulesOf(Forwarded(v)), filter, streams, sourceId, slug)
         == RouteEvent(RulesOf(v), filter, streams, sourceId, slug)
  {
    ForwardingKeepsMeaning(v);
  }

  // ----- order, and where the mapped connections come from

  lemma {:induction false} KeptConcat(a: seq<string>, b: seq<string>, allowed: seq<string>)
    ensures Kept(a + b, allowed) == Kept(a, allowed) + Kept(b, allowed)
    decreases |b|
  {
    if b == [] {
      assert a + b == a;
    } else {
      assert (a + b)[..|a + b| - 1] == a + b[..|b| - 1];
      KeptConcat(a, b[..|b| - 1], allowed);
    }
  }

  lemma {:induction false} WithoutConcat(a: seq<string>, b: seq<string>, dropped: string)
    ensures Without(a + b, dropped) == Without(a, dropped) + Without(b, dropped)
    decreases |b|
  {
    if b == [] {
      assert a + b == a;
    } else {
      assert (a + b)[..|a + b| - 1] == a + b[..|b| - 1];
      WithoutConcat(a, b[..|b| - 1], dropped);
    }
  }

  /** Filtering keeps the order and the repetitions of the mapped connections, and a rule
      without "*" is followed in its own order: one connection after the other. */
  lemma ResolvedInOrder(rule: seq<string>, mapped: seq<string>, id: string)
    requires WILDCARD !in rule
    ensures Resolved(Some(rule), true, mapped + [id]) == Resolved(Some(rule), true, mapped) + if id in rule then [id] else []
    ensures Resolved(Some(rule), false, mapped) == rule
  {
    KeptConcat(mapped, [id], Without(rule, WILDCARD));
    WithoutMeaning(rule, WILDCARD);
    assert [id][..0] == [] && Kept([id], Without(rule, WILDCARD)) == if id in rule then [id] else [];
    WithoutNothing(rule, WILDCARD);
  }

  lemma {:induction false} WithoutNothing(ids: seq<string>, dropped: string)
    requires dropped !in ids
    ensures Without(ids, dropped) == ids
  {
    if ids != [] {
      WithoutNothing(ids[..|ids| - 1], dropped);
      assert ids == ids[..|ids| - 1] + [ids[|ids| - 1]];
    }
  }

  /** A stream without a rule goes where the repository maps its source id, or its slug if it
      has no source id; the reason for going nowhere is what was missing. */
  lemma RouteWithoutRule(rules: Rules, filter: bool, streams: Repository, sourceId: string, slug: string)
    requires Lookup(rules, sourceId, slug).None?
    ensures var routed := RouteEvent(rules, filter, Some(streams), sourceId, slug);
      && (sourceId != "" && streams(sourceId).Some? ==> routed.ids == streams(sourceId).value)
      && (sourceId == "" && slug != "" && streams(slug).Some? ==> routed.ids == streams(slug).value)
      && (sourceId == "" && slug == "" ==> routed == Routed([], false, NoSourceId))
      && (sourceId != "" && streams(sourceId).None? ==> routed == Routed([], false, StreamNotFound))
      && (sourceId != "" && streams(sourceId) == Some([]) ==> routed == Routed([], false, NoDestinations))
    ensures RouteEvent(rules, filter, None, sourceId, slug) == Routed([], false, NoConnections)
  {
  }

  /** The whole way from the job setting in override mode: a stream's own entry wins over
      "*", and without "*" among its connections it goes exactly to those listed. */
  lemma OwnEntryDecides(m: map<string, Json>, streams: Option<Repository>, sourceId: string, slug: string)
    requires sourceId in m && WILDCARD !in Listed(m[sourceId])
    ensures RouteEvent(RulesOf(Obj(m)), false, streams, sourceId, slug).ids == Listed(m[sourceId])
  {
    LookupPrecedence(m, sourceId, slug);
    WithoutNothing(Listed(m[sourceId]), WILDCARD);
  }

  /** The whole way in both modes, for a stream with an entry of its own: in filter mode it
      goes to the mapped connections that are listed, or to all of them for "*"; in override
      mode to the listed ones, and for "*" to the mapped ones as well. */
  lemma OwnEntryRoutes(m: map<string, Json>, filter: bool, streams: Repository, sourceId: string, slug: string, id: string)
    requires sourceId in m && sourceId != ""
    ensures var listed := Listed(m[sourceId]);
      var mapped := if streams(sourceId).Some? then streams(sourceId).value else [];
      id in RouteEvent(RulesOf(Obj(m)), filter, Some(streams), sourceId, slug).ids <==>
        if filter then id in mapped && (id in listed || "*" in listed)
        else (id in listed && id != "*") || (id in mapped && "*" in listed)
  {
    var listed := Listed(m[sourceId]);
    LookupPrecedence(m, sourceId, slug);
    UnaskedRepositoryIsIrrelevant(RulesOf(Obj(m)), filter, streams, sourceId, slug);
    ResolvedMeaning(Some(listed), filter, Mapped(streams, sourceId, slug).0, id);
  }

  /** In override mode a rule without "*" leaves the repository unasked: the outcome, its
      reason included, is the same for every repository and without any. */
  lemma RepositoryIsNotAsked(rules: Rules, streams: Option<Repository>, sourceId: string, slug: string)
    requires Lookup(rules, sourceId, slug).Some? && "*" !in Lookup(rules, sourceId, slug).value
    ensures RouteEvent(rules, false, streams, sourceId, slug) == RouteEvent(rules, false, None, sourceId, slug)
    ensures RouteEvent(rules, false, streams, sourceId, slug).reason == NoReason
  {
  }
}
