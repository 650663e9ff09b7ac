/** The canonical row encoding of the repository circuit breaker.

    A payload row is decoded into a JSON value (objects become unordered maps, a
    repeated member keeps its last value) and written out byte by byte: object keys in
    byte order, strings behind an 8-byte little-endian length, every value behind a type
    tag. The encoding is a prefix code, and two row texts get the same bytes exactly when
    they differ in nothing but the order of the object members that count. */
module Canonical {

  type Byte = x: int | 0 <= x < 256
  type Bytes = seq<Byte>

  datatype Json =
    | JNull
    | JBool(b: bool)
    | JNumber(literal: Bytes)
    | JString(s: Bytes)
    | JArray(items: seq<Json>)
    | JObject(fields: map<Bytes, Json>)

  const TAG_OBJECT: Byte := 123
  const TAG_OBJECT_END: Byte := 125
  const TAG_ARRAY: Byte := 91
  const TAG_ARRAY_END: Byte := 93
  const TAG_STRING: Byte := 115
  const TAG_NUMBER: Byte := 35
  const TAG_TRUE: Byte := 84
  const TAG_FALSE: Byte := 70
  const TAG_NULL: Byte := 78
  const COMMA: Byte := 44
  const COLON: Byte := 58

  /** Lengths are written as 64-bit words. */
  const LENGTH_LIMIT: nat := 0x1_0000_0000_0000_0000

  // ----- byte order of keys

  predicate Less(a: Bytes, b: Bytes) {
    if b == [] then false
    else if a == [] then true
    else a[0] < b[0] || (a[0] == b[0] && Less(a[1..], b[1..]))
  }

  lemma LessTotal(a: Bytes, b: Bytes)
    ensures a == b || Less(a, b) || Less(b, a)
    ensures !(Less(a, b) && Less(b, a))
    ensures !Less(a, a)
  {
    if a != [] && b != [] {
      LessTotal(a[1..], b[1..]);
      assert a == [a[0]] + a[1..] && b == [b[0]] + b[1..];
    }
  }

  lemma LessTransitive(a: Bytes, b: Bytes, c: Bytes)
    requires Less(a, b) && Less(b, c)
    ensures Less(a, c)
  {
    if a != [] && a[0] == b[0] == c[0] {
      LessTransitive(a[1..], b[1..], c[1..]);
    }
  }

  predicate IsLeast(k: Bytes, s: set<Bytes>) {
    k in s && forall j | j in s :: j == k || Less(k, j)
  }

  lemma LeastExists(s: set<Bytes>)
    requires s != {}
    ensures exists k :: IsLeast(k, s)
    ensures forall j, k | IsLeast(j, s) && IsLeast(k, s) :: j == k
  {
    forall j, k | IsLeast(j, s) && IsLeast(k, s)
      ensures j == k
    {
      LessTotal(j, k);
    }
    var x :| x in s;
    var rest := s - {x};
    if rest == {} {
      assert s == {x};
      assert IsLeast(x, s);
    } else {
      LeastExists(rest);
      var k :| IsLeast(k, rest);
      LessTotal(x, k);
      if Less(x, k) {
        forall j | j in s && j != x ensures Less(x, j) {
          if j != k { LessTransitive(x, k, j); }
        }
        assert IsLeast(x, s);
      } else {
        assert IsLeast(k, s);
      }
    }
  }

  ghost predicate StrictlySorted(ks: seq<Bytes>) {
    forall i, j | 0 <= i < j < |ks| :: Less(ks[i], ks[j])
  }

  /** The keys of an object in byte order, each once. */
  function SortedKeys(s: set<Bytes>): (ks: seq<Bytes>)
    ensures forall k :: k in ks <==> k in s
    ensures StrictlySorted(ks)
  {
    if s == {} then []
    else
      LeastExists(s);
      var k :| IsLeast(k, s);
      [k] + SortedKeys(s - {k})
  }

  // ----- the encoder

  function LittleEndian(n: nat, width: nat): (bs: Bytes)
    ensures |bs| == width
  {
    if width == 0 then [] else [n % 256] + LittleEndian(n / 256, width - 1)
  }

  function EncodeString(s: Bytes): Bytes {
    LittleEndian(|s|, 8) + s
  }

  /** A value is its type tag followed by its body. */
  function Encode(v: Json): Bytes
    decreases v, 2
  {
    [Tag(v)] + Body(v)
  }

  function Tag(v: Json): Byte {
    match v
    case JNull => TAG_NULL
    case JBool(b) => if b then TAG_TRUE else TAG_FALSE
    case JNumber(_) => TAG_NUMBER
    case JString(_) => TAG_STRING
    case JArray(_) => TAG_ARRAY
    case JObject(_) => TAG_OBJECT
  }

  function Body(v: Json): Bytes
    decreases v, 1
  {
    match v
    case JNull => []
    case JBool(b) => []
    case JNumber(literal) => EncodeString(literal)
    case JString(s) => EncodeString(s)
    case JArray(items) => EncodeItems(items) + [TAG_ARRAY_END]
    case JObject(fields) => EncodeFields(v, SortedKeys(fields.Keys)) + [TAG_OBJECT_END]
  }

  function EncodeItems(items: seq<Json>): Bytes
    decreases items, 0
  {
    if items == [] then [] else Encode(items[0]) + ([COMMA] + EncodeItems(items[1..]))
  }

  function EncodeFields(v: Json, keys: seq<Bytes>): Bytes
    requires v.JObject?
    requires forall k | k in keys :: k in v.fields
    decreases v, 0, |keys|
  {
    if keys == [] then []
    else
      [COMMA] + (EncodeString(keys[0]) + ([COLON] + (Encode(v.fields[keys[0]]) + EncodeFields(v, keys[1..]))))
  }

  /** Every string in the value has a length that fits its 64-bit prefix. */
  ghost predicate Encodable(v: Json) {
    match v
    case JNull => true
    case JBool(_) => true
    case JNumber(literal) => |literal| < LENGTH_LIMIT
    case JString(s) => |s| < LENGTH_LIMIT
    case JArray(items) => forall i | 0 <= i < |items| :: Encodable(items[i])
    case JObject(fields) => forall k | k in fields :: |k| < LENGTH_LIMIT && Encodable(fields[k])
  }

  // ----- unique decodability

  ghost function Power256(k: nat): nat {
    if k == 0 then 1 else 256 * Power256(k - 1)
  }

  lemma LittleEndianInjective(m: nat, n: nat, width: nat)
    requires m < Power256(width) && n < Power256(width)
    requires LittleEndian(m, width) == LittleEndian(n, width)
    ensures m == n
  {
    if width > 0 {
      var a, b := LittleEndian(m, width), LittleEndian(n, width);
      assert a[0] == m % 256 && b[0] == n % 256;
      assert a[1..] == LittleEndian(m / 256, width - 1) && b[1..] == LittleEndian(n / 256, width - 1);
      LittleEndianInjective(m / 256, n / 256, width - 1);
    }
  }

  /** Cuts equal byte strings after a common prefix length. */
  lemma CutPrefix(a: Bytes, x: Bytes, b: Bytes, y: Bytes)
    requires |a| == |b| && a + x == b + y
    ensures a == b && x == y
  {
    assert a == (a + x)[..|a|] && b == (b + y)[..|a|];
    assert x == (a + x)[|a|..] && y == (b + y)[|a|..];
  }

  lemma CutByte(a: Byte, x: Bytes, b: Byte, y: Bytes)
    requires [a] + x == [b] + y
    ensures a == b && x == y
  {
    CutPrefix([a], x, [b], y);
    assert a == [a][0] == [b][0];
  }

  lemma StringPrefixFree(s: Bytes, t: Bytes, x: Bytes, y: Bytes)
    requires |s| < LENGTH_LIMIT && |t| < LENGTH_LIMIT
    requires EncodeString(s) + x == EncodeString(t) + y
    ensures s == t && x == y
  {
    var a, b := LittleEndian(|s|, 8), LittleEndian(|t|, 8);
    assert EncodeString(s) + x == a + (s + x) && EncodeString(t) + y == b + (t + y);
    CutPrefix(a, s + x, b, t + y);
    assert Power256(8) == LENGTH_LIMIT;
    LittleEndianInjective(|s|, |t|, 8);
    CutPrefix(s, x, t, y);
  }

  lemma SameHeadAndTail<T>(a: seq<T>, b: seq<T>)
    requires a != [] && b != [] && a[0] == b[0] && a[1..] == b[1..]
    ensures a == b
  {
    assert a == [a[0]] + a[1..] && b == [b[0]] + b[1..];
  }

  /** The canonical encoding is a prefix code: what follows an encoded value never
      changes how it is read back. */
  lemma {:induction false} PrefixFree(v: Json, w: Json, x: Bytes, y: Bytes)
    requires Encodable(v) && Encodable(w)
    requires Encode(v) + x == Encode(w) + y
    ensures v == w && x == y
    decreases v, 2
  {
    Reassociate([Tag(v)], Body(v), x);
    Reassociate([Tag(w)], Body(w), y);
    CutByte(Tag(v), Body(v) + x, Tag(w), Body(w) + y);
    BodyPrefixFree(v, w, x, y);
  }

  lemma {:induction false} BodyPrefixFree(v: Json, w: Json, x: Bytes, y: Bytes)
    requires Encodable(v) && Encodable(w) && Tag(v) == Tag(w)
    requires Body(v) + x == Body(w) + y
    ensures v == w && x == y
    decreases v, 1
  {
    match v {
      case JNull =>
        CutPrefix([], x, [], y);
      case JBool(_) =>
        CutPrefix([], x, [], y);
      case JNumber(l) =>
        StringPrefixFree(l, w.literal, x, y);
      case JString(s) =>
        StringPrefixFree(s, w.s, x, y);
      case JArray(items) =>
        assert Body(v) + x == EncodeItems(items) + ([TAG_ARRAY_END] + x);
        assert Body(w) + y == EncodeItems(w.items) + ([TAG_ARRAY_END] + y);
        ItemsPrefixFree(items, w.items, x, y);
      case JObject(fields) =>
        ObjectPrefixFree(v, w, x, y);
    }
  }

  lemma {:induction false} ItemsPrefixFree(vs: seq<Json>, ws: seq<Json>, x: Bytes, y: Bytes)
    requires forall i | 0 <= i < |vs| :: Encodable(vs[i])
    requires forall i | 0 <= i < |ws| :: Encodable(ws[i])
    requires EncodeItems(vs) + ([TAG_ARRAY_END] + x) == EncodeItems(ws) + ([TAG_ARRAY_END] + y)
    ensures vs == ws && x == y
    decreases vs, 0
  {
    if vs == [] || ws == [] {
      ItemsHead(vs, x);
      ItemsHead(ws, y);
      CutPrefix([TAG_ARRAY_END], x, [TAG_ARRAY_END], y);
    } else {
      var restV := EncodeItems(vs[1..]) + ([TAG_ARRAY_END] + x);
      var restW := EncodeItems(ws[1..]) + ([TAG_ARRAY_END] + y);
      ItemsUnfold(vs, [TAG_ARRAY_END] + x);
      ItemsUnfold(ws, [TAG_ARRAY_END] + y);
      PrefixFree(vs[0], ws[0], [COMMA] + restV, [COMMA] + restW);
      CutByte(COMMA, restV, COMMA, restW);
      ItemsPrefixFree(vs[1..], ws[1..], x, y);
      SameHeadAndTail(vs, ws);
    }
  }

  lemma {:induction false} ItemsUnfold(vs: seq<Json>, x: Bytes)
    requires vs != []
    ensures EncodeItems(vs) + x == Encode(vs[0]) + ([COMMA] + (EncodeItems(vs[1..]) + x))
  {
    Reassociate(Encode(vs[0]), [COMMA] + EncodeItems(vs[1..]), x);
    Reassociate([COMMA], EncodeItems(vs[1..]), x);
  }

  /** The closing bracket cannot be mistaken for the first byte of an item. */
  lemma ItemsHead(vs: seq<Json>, x: Bytes)
    ensures vs == [] ==> EncodeItems(vs) + ([TAG_ARRAY_END] + x) == [TAG_ARRAY_END] + x
    ensures vs != [] ==> (EncodeItems(vs) + ([TAG_ARRAY_END] + x))[0] != TAG_ARRAY_END
  {
    if vs != [] {
      assert EncodeItems(vs)[0] == Encode(vs[0])[0] == Tag(vs[0]);
    }
  }

  lemma {:induction false} ObjectPrefixFree(v: Json, w: Json, x: Bytes, y: Bytes)
    requires v.JObject? && w.JObject? && Encodable(v) && Encodable(w)
    requires Body(v) + x == Body(w) + y
    ensures v == w && x == y
    decreases v, 0
  {
    var ks, ls := SortedKeys(v.fields.Keys), SortedKeys(w.fields.Keys);
    Reassociate(EncodeFields(v, ks), [TAG_OBJECT_END], x);
    Reassociate(EncodeFields(w, ls), [TAG_OBJECT_END], y);
    FieldsPrefixFree(v, ks, w, ls, x, y);
    SameFields(v, w);
  }

  ghost predicate AgreeOn(v: Json, w: Json, ks: seq<Bytes>)
    requires v.JObject? && w.JObject?
  {
    forall k | k in ks :: k in v.fields && k in w.fields && v.fields[k] == w.fields[k]
  }

  lemma AgreeOnMore(v: Json, w: Json, ks: seq<Bytes>)
    requires v.JObject? && w.JObject? && ks != []
    requires ks[0] in v.fields && ks[0] in w.fields && v.fields[ks[0]] == w.fields[ks[0]] && AgreeOn(v, w, ks[1..])
    ensures AgreeOn(v, w, ks)
  {
    assert ks == [ks[0]] + ks[1..];
  }

  lemma SameFields(v: Json, w: Json)
    requires v.JObject? && w.JObject?
    requires SortedKeys(v.fields.Keys) == SortedKeys(w.fields.Keys)
    requires AgreeOn(v, w, SortedKeys(v.fields.Keys))
    ensures v == w
  {
    var ks := SortedKeys(v.fields.Keys);
    assert v.fields.Keys == (set k | k in ks) == w.fields.Keys;
    assert v.fields == w.fields;
  }

  lemma {:induction false} FieldsPrefixFree(v: Json, ks: seq<Bytes>, w: Json, ls: seq<Bytes>, x: Bytes, y: Bytes)
    requires v.JObject? && w.JObject? && Encodable(v) && Encodable(w)
    requires forall k | k in ks :: k in v.fields
    requires forall l | l in ls :: l in w.fields
    requires EncodeFields(v, ks) + ([TAG_OBJECT_END] + x) == EncodeFields(w, ls) + ([TAG_OBJECT_END] + y)
    ensures ks == ls && x == y
    ensures AgreeOn(v, w, ks)
    decreases v, 0, |ks|
  {
    if ks == [] || ls == [] {
      NoFieldsLeft(v, ks, w, ls, x, y);
    } else {
      var restV := EncodeFields(v, ks[1..]) + ([TAG_OBJECT_END] + x);
      var restW := EncodeFields(w, ls[1..]) + ([TAG_OBJECT_END] + y);
      var vv, ww := v.fields[ks[0]], w.fields[ls[0]];
      CutField(v, ks, w, ls, [TAG_OBJECT_END] + x, [TAG_OBJECT_END] + y);
      PrefixFree(vv, ww, restV, restW);
      FieldsPrefixFree(v, ks[1..], w, ls[1..], x, y);
      AgreeOnMore(v, w, ks);
      SameHeadAndTail(ks, ls);
    }
  }

  lemma {:induction false} NoFieldsLeft(v: Json, ks: seq<Bytes>, w: Json, ls: seq<Bytes>, x: Bytes, y: Bytes)
    requires v.JObject? && w.JObject? && (ks == [] || ls == [])
    requires forall k | k in ks :: k in v.fields
    requires forall l | l in ls :: l in w.fields
    requires EncodeFields(v, ks) + ([TAG_OBJECT_END] + x) == EncodeFields(w, ls) + ([TAG_OBJECT_END] + y)
    ensures ks == [] && ls == [] && x == y
  {
    FieldsHead(v, ks, x);
    FieldsHead(w, ls, y);
    CutByte(TAG_OBJECT_END, x, TAG_OBJECT_END, y);
  }

  lemma {:induction false} CutField(v: Json, ks: seq<Bytes>, w: Json, ls: seq<Bytes>, x: Bytes, y: Bytes)
    requires v.JObject? && w.JObject? && Encodable(v) && Encodable(w) && ks != [] && ls != []
    requires forall k | k in ks :: k in v.fields
    requires forall l | l in ls :: l in w.fields
    requires EncodeFields(v, ks) + x == EncodeFields(w, ls) + y
    ensures ks[0] == ls[0]
    ensures Encode(v.fields[ks[0]]) + (EncodeFields(v, ks[1..]) + x) == Encode(w.fields[ls[0]]) + (EncodeFields(w, ls[1..]) + y)
  {
    FieldsUnfold(v, ks, x);
    FieldsUnfold(w, ls, y);
    CutKey(ks[0], Encode(v.fields[ks[0]]) + (EncodeFields(v, ks[1..]) + x),
           ls[0], Encode(w.fields[ls[0]]) + (EncodeFields(w, ls[1..]) + y));
  }

  lemma CutKey(k: Bytes, x: Bytes, l: Bytes, y: Bytes)
    requires |k| < LENGTH_LIMIT && |l| < LENGTH_LIMIT
    requires [COMMA] + (EncodeString(k) + ([COLON] + x)) == [COMMA] + (EncodeString(l) + ([COLON] + y))
    ensures k == l && x == y
  {
    CutPrefix([COMMA], EncodeString(k) + ([COLON] + x), [COMMA], EncodeString(l) + ([COLON] + y));
    StringPrefixFree(k, l, [COLON] + x, [COLON] + y);
    CutPrefix([COLON], x, [COLON], y);
  }

  lemma {:induction false} FieldsUnfold(v: Json, ks: seq<Bytes>, x: Bytes)
    requires v.JObject? && ks != []
    requires forall k | k in ks :: k in v.fields
    ensures EncodeFields(v, ks) + x
         == [COMMA] + (EncodeString(ks[0]) + ([COLON] + (Encode(v.fields[ks[0]]) + (EncodeFields(v, ks[1..]) + x))))
  {
    FieldTail(EncodeString(ks[0]), Encode(v.fields[ks[0]]), EncodeFields(v, ks[1..]), x);
  }

  lemma FieldTail(key: Bytes, value: Bytes, rest: Bytes, x: Bytes)
    ensures ([COMMA] + (key + ([COLON] + (value + rest)))) + x == [COMMA] + (key + ([COLON] + (value + (rest + x))))
  {
    Reassociate([COMMA], key + ([COLON] + (value + rest)), x);
    Reassociate(key, [COLON] + (value + rest), x);
    Reassociate([COLON], value + rest, x);
    Reassociate(value, rest, x);
  }

  lemma Reassociate(a: Bytes, b: Bytes, c: Bytes)
    ensures (a + b) + c == a + (b + c)
  {
  }

  lemma FieldsHead(v: Json, ks: seq<Bytes>, x: Bytes)
    requires v.JObject?
    requires forall k | k in ks :: k in v.fields
    ensures ks == [] ==> EncodeFields(v, ks) + ([TAG_OBJECT_END] + x) == [TAG_OBJECT_END] + x
    ensures ks != [] ==> (EncodeFields(v, ks) + ([TAG_OBJECT_END] + x))[0] != TAG_OBJECT_END
  {
  }

  // ----- the bytes themselves

  /** The number whose digits to base 256 are the bytes, lowest first. */
  function Value(bs: Bytes): nat {
    if bs == [] then 0 else bs[0] + 256 * Value(bs[1..])
  }

  /** A length is written lowest byte first. */
  lemma {:induction false} LittleEndianValue(n: nat, width: nat)
    requires n < Power256(width)
    ensures Value(LittleEndian(n, width)) == n
  {
    if width > 0 {
      var bs := LittleEndian(n, width);
      assert bs[0] == n % 256 && bs[1..] == LittleEndian(n / 256, width - 1);
      LittleEndianValue(n / 256, width - 1);
    }
  }

  lemma ScalarForms(s: Bytes)
    ensures Encode(JNull) == [78] && Encode(JBool(true)) == [84] && Encode(JBool(false)) == [70]
    ensures Encode(JString(s)) == [115] + (LittleEndian(|s|, 8) + s)
    ensures Encode(JNumber(s)) == [35] + (LittleEndian(|s|, 8) + s)
  {
  }

  /** A comma follows every item. */
  lemma {:induction false} ArrayForm(items: seq<Json>, v: Json)
    ensures EncodeItems(items + [v]) == EncodeItems(items) + Encode(v) + [44]
    ensures Encode(JArray(items)) == [91] + (EncodeItems(items) + [93])
    decreases |items|
  {
    if items == [] {
      assert [] + [v] == [v] && [v][1..] == [];
    } else {
      ArrayForm(items[1..], v);
      assert (items + [v])[1..] == items[1..] + [v];
      var e, rest := Encode(items[0]), EncodeItems(items[1..]);
      assert e + ([COMMA] + (rest + Encode(v) + [44])) == (e + ([COMMA] + rest)) + Encode(v) + [44];
    }
  }

  /** A member is a comma, its key, a colon and its value, in the order of the keys. */
  lemma {:induction false} ObjectForm(v: Json, keys: seq<Bytes>)
    requires v.JObject? && keys != [] && forall k | k in keys :: k in v.fields
    ensures EncodeFields(v, keys)
         == [44] + (LittleEndian(|keys[0]|, 8) + keys[0] + ([58] + (Encode(v.fields[keys[0]]) + EncodeFields(v, keys[1..]))))
    ensures Encode(v) == [123] + (EncodeFields(v, SortedKeys(v.fields.Keys)) + [125])
  {
  }

  // ----- row texts: members in the order they were written

  datatype Member = Member(key: Bytes, value: Text)

  /** A row as written, strings and numbers already read: two spellings of one string, by
      different escapes, are one Text. */
  datatype Text =
    | TNull
    | TBool(b: bool)
    | TNumber(literal: Bytes)
    | TString(s: Bytes)
    | TArray(items: seq<Text>)
    | TObject(members: seq<Member>)

  /** What the JSON decoder makes of a row text: the last of repeated keys wins. */
  function Decode(t: Text): Json
    decreases t, 1
  {
    match t
    case TNull => JNull
    case TBool(b) => JBool(b)
    case TNumber(literal) => JNumber(literal)
    case TString(s) => JString(s)
    case TArray(items) => JArray(seq(|items|, i requires 0 <= i < |items| => Decode(items[i])))
    case TObject(members) => JObject(DecodeMembers(t, |members|))
  }

  function DecodeMembers(t: Text, n: nat): map<Bytes, Json>
    requires t.TObject? && n <= |t.members|
    decreases t, 0, n
  {
    if n == 0 then map[]
    else DecodeMembers(t, n - 1)[t.members[n - 1].key := Decode(t.members[n - 1].value)]
  }

  /** Among the first n members, i is the last one with its key. */
  predicate LastOfKey(t: Text, n: nat, i: int)
    requires t.TObject? && n <= |t.members|
  {
    0 <= i < n && forall j | i < j < n :: t.members[j].key != t.members[i].key
  }

  /** The member counts: no later one of the object has its key. */
  predicate Counts(t: Text, i: int)
    requires t.TObject?
  {
    LastOfKey(t, |t.members|, i)
  }

  /** t and u are the same text up to the order of the members that count, at every depth. */
  ghost predicate SameUpToKeyOrder(t: Text, u: Text)
    decreases t
  {
    match t
    case TNull => u.TNull?
    case TBool(_) => u == t
    case TNumber(_) => u == t
    case TString(_) => u == t
    case TArray(items) =>
      u.TArray? && |u.items| == |items| && forall i | 0 <= i < |items| :: SameUpToKeyOrder(items[i], u.items[i])
    case TObject(members) =>
      && u.TObject?
      && (forall i | 0 <= i < |members| && Counts(t, i) :: HasSame(u, members[i]))
      && (forall j | 0 <= j < |u.members| :: HasKey(t, u.members[j].key))
  }

  ghost predicate HasKey(t: Text, key: Bytes)
    requires t.TObject?
  {
    exists i | 0 <= i < |t.members| :: t.members[i].key == key
  }

  ghost predicate HasSame(u: Text, m: Member)
    requires u.TObject?
    decreases m
  {
    exists j | 0 <= j < |u.members| ::
      Counts(u, j) && m.key == u.members[j].key && SameUpToKeyOrder(m.value, u.members[j].value)
  }

  /** One of the first n members has the key. */
  ghost predicate KeyAmong(t: Text, n: nat, key: Bytes)
    requires t.TObject? && n <= |t.members|
  {
    exists i | 0 <= i < n :: t.members[i].key == key
  }

  lemma {:induction false} SomeMemberCounts(t: Text, n: nat, key: Bytes) returns (i: nat)
    requires t.TObject? && n <= |t.members| && KeyAmong(t, n, key)
    ensures LastOfKey(t, n, i) && t.members[i].key == key
  {
    if t.members[n - 1].key == key {
      i := n - 1;
    } else {
      i := SomeMemberCounts(t, n - 1, key);
    }
  }

  lemma {:induction false} DecodedKeys(t: Text, n: nat, key: Bytes)
    requires t.TObject? && n <= |t.members|
    ensures key in DecodeMembers(t, n) <==> KeyAmong(t, n, key)
  {
    hide Decode;
    if n > 0 {
      DecodedKeys(t, n - 1, key);
      assert KeyAmong(t, n, key) <==> KeyAmong(t, n - 1, key) || t.members[n - 1].key == key;
    }
  }

  lemma {:induction false} DecodedMember(t: Text, n: nat, i: nat)
    requires t.TObject? && n <= |t.members| && LastOfKey(t, n, i)
    ensures t.members[i].key in DecodeMembers(t, n) && DecodeMembers(t, n)[t.members[i].key] == Decode(t.members[i].value)
  {
    hide Decode;
    if i < n - 1 { DecodedMember(t, n - 1, i); }
  }

  /** Decoding forgets the order of members and those that do not count, and nothing else. */
  lemma {:induction false} DecodeEqualIffSame(t: Text, u: Text)
    ensures Decode(t) == Decode(u) <==> SameUpToKeyOrder(t, u)
    decreases t
  {
    if t.TArray? && u.TArray? && |t.items| == |u.items| {
      forall i | 0 <= i < |t.items|
        ensures Decode(t.items[i]) == Decode(u.items[i]) <==> SameUpToKeyOrder(t.items[i], u.items[i])
      {
        DecodeEqualIffSame(t.items[i], u.items[i]);
      }
      var a, b := Decode(t), Decode(u);
      assert forall i | 0 <= i < |t.items| :: a.items[i] == Decode(t.items[i]) && b.items[i] == Decode(u.items[i]);
    } else if t.TArray? && u.TArray? {
      assert |Decode(t).items| == |t.items| && |Decode(u).items| == |u.items|;
    } else if t.TObject? && u.TObject? {
      ObjectsEqualIffSame(t, u);
    }
  }

  /** The members of t and u compare as their decoded values do. */
  ghost predicate MembersAgree(t: Text, u: Text)
    requires t.TObject? && u.TObject?
  {
    forall i, j | 0 <= i < |t.members| && 0 <= j < |u.members| ::
      Decode(t.members[i].value) == Decode(u.members[j].value)
      <==> SameUpToKeyOrder(t.members[i].value, u.members[j].value)
  }

  /** fields is what the members of t decode to. */
  ghost predicate Decoded(t: Text, fields: map<Bytes, Json>)
    requires t.TObject?
  {
    && (forall k :: k in fields <==> HasKey(t, k))
    && (forall i | 0 <= i < |t.members| && Counts(t, i) ::
          t.members[i].key in fields && fields[t.members[i].key] == Decode(t.members[i].value))
  }

  lemma AllDecoded(t: Text)
    requires t.TObject?
    ensures Decoded(t, DecodeMembers(t, |t.members|))
  {
    var n := |t.members|;
    forall k ensures k in DecodeMembers(t, n) <==> HasKey(t, k) {
      DecodedKeys(t, n, k);
      assert KeyAmong(t, n, k) <==> HasKey(t, k);
    }
    forall i | 0 <= i < n && Counts(t, i)
      ensures t.members[i].key in DecodeMembers(t, n) && DecodeMembers(t, n)[t.members[i].key] == Decode(t.members[i].value)
    {
      DecodedMember(t, n, i);
    }
  }

  lemma {:induction false} ObjectsEqualIffSame(t: Text, u: Text)
    requires t.TObject? && u.TObject?
    ensures Decode(t) == Decode(u) <==> SameUpToKeyOrder(t, u)
    decreases t, 1
  {
    var a, b := DecodeMembers(t, |t.members|), DecodeMembers(u, |u.members|);
    AllDecoded(t);
    AllDecoded(u);
    AllMembersAgree(t, u);
    if a == b {
      SameIfDecodedEqual(t, u, a);
    }
    if SameUpToKeyOrder(t, u) {
      DecodedEqualIfSame(t, a, u, b);
    }
  }

  lemma {:induction false} AllMembersAgree(t: Text, u: Text)
    requires t.TObject? && u.TObject?
    ensures MembersAgree(t, u)
    decreases t, 0
  {
    forall i, j | 0 <= i < |t.members| && 0 <= j < |u.members|
      ensures Decode(t.members[i].value) == Decode(u.members[j].value)
          <==> SameUpToKeyOrder(t.members[i].value, u.members[j].value)
    {
      DecodeEqualIffSame(t.members[i].value, u.members[j].value);
    }
  }

  lemma {:induction false} SameIfDecodedEqual(t: Text, u: Text, a: map<Bytes, Json>)
    requires t.TObject? && u.TObject? && MembersAgree(t, u)
    requires Decoded(t, a) && Decoded(u, a)
    ensures SameUpToKeyOrder(t, u)
  {
    forall i | 0 <= i < |t.members| && Counts(t, i) ensures HasSame(u, t.members[i]) {
      assert HasKey(u, t.members[i].key);
      assert KeyAmong(u, |u.members|, t.members[i].key);
      var j := SomeMemberCounts(u, |u.members|, t.members[i].key);
      assert Counts(u, j) && a[u.members[j].key] == Decode(u.members[j].value);
    }
    forall j | 0 <= j < |u.members| ensures HasKey(t, u.members[j].key) {
      assert HasKey(u, u.members[j].key);
    }
  }

  lemma {:induction false} DecodedEqualIfSame(t: Text, a: map<Bytes, Json>, u: Text, b: map<Bytes, Json>)
    requires t.TObject? && u.TObject? && MembersAgree(t, u) && SameUpToKeyOrder(t, u)
    requires Decoded(t, a) && Decoded(u, b)
    ensures a == b
  {
    forall k | k in a ensures k in b && b[k] == a[k] {
      assert HasKey(t, k);
      assert KeyAmong(t, |t.members|, k);
      var i := SomeMemberCounts(t, |t.members|, k);
      assert Counts(t, i) && HasSame(u, t.members[i]);
      var j :| 0 <= j < |u.members| && Counts(u, j) && k == u.members[j].key
               && SameUpToKeyOrder(t.members[i].value, u.members[j].value);
      assert HasKey(u, k);
    }
    forall k | k in b ensures k in a {
      assert HasKey(u, k);
      var j :| 0 <= j < |u.members| && u.members[j].key == k;
      assert HasKey(t, u.members[j].key);
    }
  }

  /** Two row texts are written as the same bytes exactly when they differ only in the
      order of object members and in members that a later one overrides, so re-ordering
      keys never reads as a change and every edit the decoder sees does. */
  lemma SameBytesIffSameRow(t: Text, u: Text)
    requires Encodable(Decode(t)) && Encodable(Decode(u))
    ensures Encode(Decode(t)) == Encode(Decode(u)) <==> SameUpToKeyOrder(t, u)
  {
    DecodeEqualIffSame(t, u);
    if Encode(Decode(t)) == Encode(Decode(u)) {
      PrefixFree(Decode(t), Decode(u), [], []);
    }
  }
}
