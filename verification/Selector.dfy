/** The stream selector of a reprocessing job: the admin decodes it, stores it, and writes
    it out again; the worker reads what was written and selects and routes events by it. */
module Selector {

  import opened Common

  const WILDCARD := "*"

  /** A decoded JSON value; numbers and booleans are not told apart here. */
  datatype Json = Null | Scalar | Str(text: string) | Arr(items: seq<Json>) | Obj(fields: map<string, Json>)

  /** What the admin keeps: at most one of the two forms. */
  datatype StreamSelector = StreamSelector(ids: Option<seq<string>>, connections: Option<map<string, seq<string>>>)

  /** What the worker selects streams and connections by. */
  datatype Rules = Rules(selected: bool, mapForm: bool, ids: seq<string>, perStream: map<string, seq<string>>)

  // ----- the admin: decoding and encoding

  predicate AllStrings(items: seq<Json>) {
    forall i | 0 <= i < |items| :: items[i].Str?
  }

  predicate StringsOrNulls(items: seq<Json>) {
    forall i | 0 <= i < |items| :: items[i].Str? || items[i].Null?
  }

  /** The string elements, others left out. */
  function Texts(items: seq<Json>): seq<string> {
    if items == [] then []
    else Texts(items[..|items| - 1]) + if items[|items| - 1].Str? then [items[|items| - 1].text] else []
  }

  /** A list decoded as strings: a null element leaves the empty string behind. */
  function TextsOrEmpty(items: seq<Json>): seq<string> {
    seq(|items|, i requires 0 <= i < |items| => if items[i].Str? then items[i].text else "")
  }

  function ConnectionList(v: Json): Option<seq<string>> {
    match v
    case Str(s) => Some([s])
    case Arr(items) => if AllStrings(items) then Some(Texts(items)) else None
    case _ => None
  }

  predicate AllLists(m: map<string, Json>) {
    forall k | k in m :: ConnectionList(m[k]).Some?
  }

  function Unmarshal(v: Json): Option<StreamSelector> {
    match v
    case Null => Some(StreamSelector(None, None))
    case Obj(m) =>
      if AllLists(m) then Some(StreamSelector(None, Some(map k | k in m :: ConnectionList(m[k]).value))) else None
    case Arr(items) => if StringsOrNulls(items) then Some(StreamSelector(Some(TextsOrEmpty(items)), None)) else None
    case _ => None
  }

  method ParseConnectionList(v: Json) returns (r: Option<seq<string>>)
    ensures r == ConnectionList(v)
  {
    match v {
      case Str(s) => r := Some([s]);
      case Arr(items) =>
        var conns := [];
        for i := 0 to |items|
          invariant AllStrings(items[..i]) && conns == Texts(items[..i])
        {
          assert items[..i + 1][..i] == items[..i];
          if !items[i].Str? { return None; }
          conns := conns + [items[i].text];
        }
        assert items[..|items|] == items;
        r := Some(conns);
      case _ => r := None;
    }
  }

  method UnmarshalJson(v: Json) returns (r: Option<StreamSelector>)
    ensures r == Unmarshal(v)
  {
    match v {
      case Null => r := Some(StreamSelector(None, None));
      case Obj(m) =>
        var connections: map<string, seq<string>> := map[];
        var left := m.Keys;
        while left != {}
          invariant left <= m.Keys && connections.Keys == m.Keys - left
          invariant forall k | k in connections :: ConnectionList(m[k]) == Some(connections[k])
        {
          var k :| k in left;
          var conns := ParseConnectionList(m[k]);
          if conns.None? { return None; }
          connections := connections[k := conns.value];
          left := left - {k};
        }
        assert connections == map k | k in m :: ConnectionList(m[k]).value;
        r := Some(StreamSelector(None, Some(connections)));
      case Arr(items) =>
        var ids := [];
        for i := 0 to |items|
          invariant StringsOrNulls(items[..i]) && ids == TextsOrEmpty(items[..i])
        {
          if !items[i].Str? && !items[i].Null? { return None; }
          ids := ids + [if items[i].Str? then items[i].text else ""];
        }
        assert items[..|items|] == items;
        r := Some(StreamSelector(Some(ids), None));
      case _ => r := None;
    }
  }

  function Strs(texts: seq<string>): seq<Json> {
    seq(|texts|, i requires 0 <= i < |texts| => Str(texts[i]))
  }

  function Marshal(s: StreamSelector): Json {
    if s.connections.Some? then Obj(map k | k in s.connections.value :: Arr(Strs(s.connections.value[k])))
    else if s.ids.Some? then Arr(Strs(s.ids.value))
    else Null
  }

  // ----- the worker: rules, selection

  function Listed(v: Json): seq<string> {
    match v
    case Str(s) => [s]
    case Arr(items) => Texts(items)
    case _ => []
  }

  function RulesOf(v: Json): Rules {
    match v
    case Arr(items) => Rules(true, false, Texts(items), map[])
    case Obj(m) => Rules(true, true, [], map k | k in m :: Listed(m[k]))
    case _ => Rules(false, false, [], map[])
  }

  method ParseConnectionRules(v: Json) returns (r: Rules)
    ensures r == RulesOf(v)
  {
    r := Rules(false, false, [], map[]);
    match v {
      case Arr(items) =>
        var ids := [];
        for i := 0 to |items|
          invariant ids == Texts(items[..i])
        {
          assert items[..i + 1][..i] == items[..i];
          if items[i].Str? { ids := ids + [items[i].text]; }
        }
        assert items[..|items|] == items;
        r := r.(selected := true, ids := ids);
      case Obj(m) =>
        var perStream: map<string, seq<string>> := map[];
        var left := m.Keys;
        while left != {}
          invariant left <= m.Keys && perStream.Keys == m.Keys - left
          invariant forall k | k in perStream :: perStream[k] == Listed(m[k])
        {
          var k :| k in left;
          perStream := perStream[k := Listed(m[k])];
          left := left - {k};
        }
        assert perStream == map k | k in m :: Listed(m[k]);
        r := r.(selected := true, mapForm := true, perStream := perStream);
      case _ =>
    }
  }

  function Lookup(r: Rules, sourceId: string, slug: string): Option<seq<string>> {
    if !r.mapForm then None
    else if sourceId in r.perStream then Some(r.perStream[sourceId])
    else if slug != "" && slug in r.perStream then Some(r.perStream[slug])
    else if WILDCARD in r.perStream then Some(r.perStream[WILDCARD])
    else None
  }

  predicate Selects(r: Rules, sourceId: string, slug: string) {
    if !r.selected then true
    else if r.mapForm then Lookup(r, sourceId, slug).Some?
    else sourceId in r.ids || (slug != "" && slug in r.ids)
  }

  method Matches(r: Rules, sourceId: string, slug: string) returns (matched: bool)
    ensures matched == Selects(r, sourceId, slug)
  {
    if !r.selected { return true; }
    if r.mapForm { return Lookup(r, sourceId, slug).Some?; }
    for i := 0 to |r.ids|
      invariant sourceId !in r.ids[..i] && (slug != "" ==> slug !in r.ids[..i])
    {
      if r.ids[i] == sourceId || (slug != "" && r.ids[i] == slug) { return true; }
    }
    return false;
  }

  // ----- the two ends agree

  lemma {:induction false} TextsOfStrs(texts: seq<string>)
    ensures Texts(Strs(texts)) == texts
  {
    if texts != [] {
      var n := |texts| - 1;
      TextsOfStrs(texts[..n]);
      assert Strs(texts)[..n] == Strs(texts[..n]);
      assert texts == texts[..n] + [texts[n]];
    }
  }

  lemma {:induction false} TextsMeaning(items: seq<Json>)
    ensures forall s :: s in Texts(items) <==> Str(s) in items
    ensures AllStrings(items) ==> Texts(items) == TextsOrEmpty(items)
  {
    if items != [] {
      var n := |items| - 1;
      TextsMeaning(items[..n]);
      assert items == items[..n] + [items[n]];
      if AllStrings(items) { assert TextsOrEmpty(items) == TextsOrEmpty(items[..n]) + [items[n].text]; }
    }
  }

  /** Writing a selector out and reading it back gives the same selector. */
  lemma SelectorRoundTrip(s: StreamSelector)
    requires s.ids.None? || s.connections.None?
    ensures Unmarshal(Marshal(s)) == Some(s)
  {
    if s.connections.Some? {
      var m := s.connections.value;
      forall k | k in m ensures ConnectionList(Arr(Strs(m[k]))) == Some(m[k]) { TextsOfStrs(m[k]); }
      var w := Marshal(s).fields;
      assert AllLists(w);
      assert m == map k | k in w :: ConnectionList(w[k]).value;
    } else if s.ids.Some? {
      assert TextsOrEmpty(Strs(s.ids.value)) == s.ids.value;
    }
  }

  function Forwarded(v: Json): Json
    requires Unmarshal(v).Some?
  {
    Marshal(Unmarshal(v).value)
  }

  /** A list the admin silently widens: a null element becomes the empty stream id. */
  predicate GainsEmptyId(v: Json) {
    v.Arr? && Null in v.items && Str("") !in v.items
  }

  lemma ListedForwarded(v: Json)
    requires ConnectionList(v).Some?
    ensures Listed(Arr(Strs(ConnectionList(v).value))) == Listed(v)
  {
    TextsOfStrs(ConnectionList(v).value);
  }

  lemma {:induction false} MapFormForwarded(v: Json)
    requires v.Obj? && Unmarshal(v).Some?
    ensures RulesOf(Forwarded(v)) == RulesOf(v)
  {
    var m, f := v.fields, Forwarded(v).fields;
    forall k | k in m ensures k in f && Listed(f[k]) == Listed(m[k]) {
      ListedForwarded(m[k]);
    }
    assert RulesOf(Forwarded(v)).perStream == RulesOf(v).perStream;
  }

  lemma ListFormForwarded(v: Json)
    requires v.Arr? && Unmarshal(v).Some?
    ensures RulesOf(Forwarded(v)) == Rules(true, false, TextsOrEmpty(v.items), map[])
    ensures forall s :: s in TextsOrEmpty(v.items) <==> s in Texts(v.items) || (s == "" && Null in v.items)
  {
    TextsOfStrs(TextsOrEmpty(v.items));
    TextsMeaning(v.items);
    forall s ensures s in TextsOrEmpty(v.items) <==> s in Texts(v.items) || (s == "" && Null in v.items) {
      if s in TextsOrEmpty(v.items) {
        var i :| 0 <= i < |v.items| && TextsOrEmpty(v.items)[i] == s;
        assert v.items[i] in v.items;
      }
      if Str(s) in v.items {
        var i :| 0 <= i < |v.items| && v.items[i] == Str(s);
        assert TextsOrEmpty(v.items)[i] == s;
      }
      if Null in v.items {
        var i :| 0 <= i < |v.items| && v.items[i] == Null;
        assert TextsOrEmpty(v.items)[i] == "";
      }
    }
  }

  /** A selector accepted by the admin means the same to the worker after it went through
      the admin: every stream finds the same rule, always; and every stream is selected as
      before if and only if the list has no null that would add the empty stream id. */
  lemma ForwardingKeepsMeaning(v: Json)
    requires Unmarshal(v).Some?
    ensures forall sourceId, slug :: Lookup(RulesOf(Forwarded(v)), sourceId, slug) == Lookup(RulesOf(v), sourceId, slug)
    ensures (forall sourceId, slug :: Selects(RulesOf(Forwarded(v)), sourceId, slug) == Selects(RulesOf(v), sourceId, slug))
       <==> !GainsEmptyId(v)
  {
    if v.Obj? {
      MapFormForwarded(v);
    } else if v.Arr? {
      ListFormForwarded(v);
      TextsMeaning(v.items);
      if GainsEmptyId(v) {
        assert Selects(RulesOf(Forwarded(v)), "", "") && !Selects(RulesOf(v), "", "");
      }
    }
  }

  lemma NullElementWidensSelection()
    ensures var v := Arr([Null]);
      && Unmarshal(v).Some? && GainsEmptyId(v)
      && Selects(RulesOf(Forwarded(v)), "", "shop") && !Selects(RulesOf(v), "", "shop")
  {
    var v := Arr([Null]);
    assert v.items[0] == Null;
    ListFormForwarded(v);
    TextsMeaning(v.items);
  }

  ghost function Longest(texts: set<string>): (n: nat)
    ensures forall s | s in texts :: |s| <= n
  {
    if texts == {} then 0
    else
      var s := Pick(texts);
      var n := Longest(texts - {s});
      assert forall t | t in texts :: t == s || t in texts - {s};
      if |s| > n then |s| else n
  }

  ghost function Pick(texts: set<string>): (s: string)
    requires texts != {}
    ensures s in texts
  {
    var s :| s in texts; s
  }

  function Blank(n: nat): (s: string)
    ensures |s| == n
  {
    seq(n, i => ' ')
  }

  /** Everything is selected exactly when the field is absent, or neither a list nor a map,
      or a map with a "*" entry; an empty list or map, in particular, selects nothing. */
  lemma SelectsEverythingIff(v: Json)
    ensures (forall sourceId, slug :: Selects(RulesOf(v), sourceId, slug))
       <==> !v.Arr? && (v.Obj? ==> WILDCARD in v.fields)
    ensures v == Arr([]) || v == Obj(map[]) ==> forall sourceId, slug :: !Selects(RulesOf(v), sourceId, slug)
  {
    var r := RulesOf(v);
    if v.Arr? {
      var stranger := Blank(Longest(set s | s in r.ids) + 1);
      assert !Selects(r, stranger, "");
    } else if v.Obj? && WILDCARD !in v.fields {
      var stranger := Blank(Longest(v.fields.Keys) + 1);
      assert !Selects(r, stranger, "");
    }
  }

  // ----- precedence

  /** In the map form a stream's own id decides, then its slug, then the "*" entry. */
  lemma LookupPrecedence(m: map<string, Json>, sourceId: string, slug: string)
    ensures Lookup(RulesOf(Obj(m)), sourceId, slug) ==
      if sourceId in m then Some(Listed(m[sourceId]))
      else if slug != "" && slug in m then Some(Listed(m[slug]))
      else if "*" in m then Some(Listed(m["*"]))
      else None
  {
  }

  /** What a map entry lists: the string itself, or the strings of a list, in their order. */
  lemma ListedMeaning(v: Json, id: string)
    ensures id in Listed(v) <==> v == Str(id) || (v.Arr? && Str(id) in v.items)
    ensures v.Arr? && AllStrings(v.items) ==>
      |Listed(v)| == |v.items| && forall i | 0 <= i < |v.items| :: v.items[i] == Str(Listed(v)[i])
  {
    if v.Arr? { TextsMeaning(v.items); }
  }

  /** The list form selects exactly the streams it names by id or by slug, and has no rule
      for any of them. */
  lemma ListSelectsIff(items: seq<Json>, sourceId: string, slug: string)
    ensures Selects(RulesOf(Arr(items)), sourceId, slug) <==> Str(sourceId) in items || (slug != "" && Str(slug) in items)
    ensures Lookup(RulesOf(Arr(items)), sourceId, slug).None?
  {
    TextsMeaning(items);
  }

  /** The map form selects exactly the streams with a rule. */
  lemma MapSelectsIff(m: map<string, Json>, sourceId: string, slug: string)
    ensures Selects(RulesOf(Obj(m)), sourceId, slug) <==> sourceId in m || (slug != "" && slug in m) || "*" in m
  {
    LookupPrecedence(m, sourceId, slug);
  }

  // ----- what the admin accepts

  predicate IsConnectionValue(v: Json) {
    v.Str? || (v.Arr? && forall i | 0 <= i < |v.items| :: v.items[i].Str?)
  }

  /** Accepted are exactly null, a list of strings and nulls, and a map from streams to strings
      or lists of strings; a null inside a map entry is refused. */
  lemma AcceptedIff(v: Json)
    ensures Unmarshal(v).Some? <==>
      || v.Null?
      || (v.Arr? && forall i | 0 <= i < |v.items| :: v.items[i].Str? || v.items[i].Null?)
      || (v.Obj? && forall k | k in v.fields :: IsConnectionValue(v.fields[k]))
  {
    if v.Obj? {
      forall k | k in v.fields ensures ConnectionList(v.fields[k]).Some? <==> IsConnectionValue(v.fields[k]) {
      }
    }
  }
}
