/** Splitting a deployment's data over size-limited ConfigMaps, and keeping the stored
    parts in step with it. */
module ConfigMaps {
  const MAX_SIZE: nat := 900 * 1024

  type Data = map<string, seq<int>>

  datatype Item = Item(key: string, data: seq<int>)

  function ItemSize(item: Item): nat { |item.data| + |item.key| + 10 }

  function Size(items: seq<Item>): nat {
    if items == [] then 0 else Size(items[..|items| - 1]) + ItemSize(items[|items| - 1])
  }

  function ToMap(items: seq<Item>): Data {
    if items == [] then map[]
    else ToMap(items[..|items| - 1])[items[|items| - 1].key := items[|items| - 1].data]
  }

  function Concat(parts: seq<seq<Item>>): seq<Item> {
    if parts == [] then [] else parts[0] + Concat(parts[1..])
  }

  // ----- greedy packing

  /** The parts that packing `items` yields when `current` is the part being filled. */
  function Packed(current: seq<Item>, items: seq<Item>): seq<seq<Item>>
    decreases |items|
  {
    if items == [] then (if current == [] then [] else [current])
    else if current != [] && Size(current) + ItemSize(items[0]) > MAX_SIZE then
      [current] + Packed([items[0]], items[1..])
    else Packed(current + [items[0]], items[1..])
  }

  function Maps(parts: seq<seq<Item>>): seq<Data> {
    seq(|parts|, i requires 0 <= i < |parts| => ToMap(parts[i]))
  }

  predicate Overflows(current: seq<Item>, item: Item) {
    current != [] && Size(current) + ItemSize(item) > MAX_SIZE
  }

  lemma PackStep(full: seq<seq<Item>>, current: seq<Item>, items: seq<Item>, i: nat)
    requires i < |items|
    ensures full + Packed(current, items[i..]) ==
      if Overflows(current, items[i]) then full + [current] + Packed([items[i]], items[i + 1..])
      else full + Packed(current + [items[i]], items[i + 1..])
  {
    assert items[i..][0] == items[i] && items[i..][1..] == items[i + 1..];
  }

  lemma FilledMore(current: seq<Item>, item: Item)
    ensures ToMap(current + [item]) == ToMap(current)[item.key := item.data]
    ensures Size(current + [item]) == Size(current) + ItemSize(item)
  {
    assert (current + [item])[..|current|] == current;
  }

  lemma FilledNotEmpty(current: seq<Item>)
    ensures Size(current) == 0 <==> current == []
    ensures ToMap(current) == map[] <==> current == []
  {
    if current != [] { assert current[|current| - 1].key in ToMap(current); }
  }

  method Split(items: seq<Item>) returns (parts: seq<Data>)
    ensures parts == Maps(Packed([], items))
  {
    parts := [];
    var currentData: Data, currentSize := map[], 0;
    ghost var current: seq<Item>, full: seq<seq<Item>> := [], [];
    for i := 0 to |items|
      invariant currentData == ToMap(current) && currentSize == Size(current)
      invariant parts == Maps(full)
      invariant full + Packed(current, items[i..]) == Packed([], items)
    {
      var item := items[i];
      PackStep(full, current, items, i);
      FilledNotEmpty(current);
      if currentSize > 0 && currentSize + ItemSize(item) > MAX_SIZE {
        parts := parts + [currentData];
        full := full + [current];
        currentData, currentSize, current := map[], 0, [];
        assert [] + [item] == [item];
      }
      FilledMore(current, item);
      currentData := currentData[item.key := item.data];
      currentSize := currentSize + ItemSize(item);
      current := current + [item];
    }
    FilledNotEmpty(current);
    assert items[|items|..] == [];
    if |currentData| > 0 {
      parts := parts + [currentData];
    }
  }

  // ----- what packing guarantees

  /** The next part starts with an item that the part before it had no room for. */
  predicate NoRoom(parts: seq<seq<Item>>, i: int)
    requires 0 <= i < |parts| - 1
  {
    parts[i + 1] != [] && Size(parts[i]) + ItemSize(parts[i + 1][0]) > MAX_SIZE
  }

  predicate Fits(part: seq<Item>) {
    part != [] && (Size(part) <= MAX_SIZE || |part| == 1)
  }

  /** Packing keeps every item in order, fills parts within the limit unless an item alone
      exceeds it, and opens a part only when the one before has no room. */
  lemma {:induction false} PackedIsGreedy(current: seq<Item>, items: seq<Item>)
    requires current == [] || Fits(current)
    ensures var parts := Packed(current, items);
      && Concat(parts) == current + items
      && (forall i | 0 <= i < |parts| :: Fits(parts[i]))
      && (forall i | 0 <= i < |parts| - 1 :: NoRoom(parts, i))
      && (current != [] ==> parts != [] && current <= parts[0])
    decreases |items|
  {
    if items == [] {
      if current != [] { assert Concat([current]) == current; }
    } else if current != [] && Size(current) + ItemSize(items[0]) > MAX_SIZE {
      var rest := Packed([items[0]], items[1..]);
      SizeOfOne(items[0]);
      PackedIsGreedy([items[0]], items[1..]);
      var parts := [current] + rest;
      assert parts[1..] == rest;
      assert [items[0]] + items[1..] == items;
      forall i | 0 <= i < |parts| - 1 ensures NoRoom(parts, i) {
        if i > 0 { assert NoRoom(rest, i - 1); }
      }
    } else {
      SizeOfMore(current, items[0]);
      PackedIsGreedy(current + [items[0]], items[1..]);
      assert current + [items[0]] + items[1..] == current + items;
    }
  }

  lemma SizeOfMore(items: seq<Item>, item: Item)
    ensures Size(items + [item]) == Size(items) + ItemSize(item)
  {
    assert (items + [item])[..|items|] == items;
  }

  lemma SizeOfOne(item: Item)
    ensures Size([item]) == ItemSize(item)
  {
    SizeOfMore([], item);
    assert [] + [item] == [item];
  }

  lemma {:induction false} SizeOfPrefix(items: seq<Item>, n: nat)
    requires n <= |items|
    ensures Size(items[..n]) <= Size(items)
  {
    if n < |items| {
      SizeOfPrefix(items[..|items| - 1], n);
      assert items[..|items| - 1][..n] == items[..n];
    } else {
      assert items[..n] == items;
    }
  }

  function Bytes(items: seq<Item>): nat {
    if items == [] then 0 else Bytes(items[..|items| - 1]) + |items[|items| - 1].key| + |items[|items| - 1].data|
  }

  /** The size of a part is the length of its keys and data, and ten for each entry. */
  lemma {:induction false} SizeMeaning(items: seq<Item>)
    ensures Size(items) == Bytes(items) + 10 * |items|
  {
    if items != [] { SizeMeaning(items[..|items| - 1]); }
  }

  /** So the keys and data of a part with more than one entry stay 10 bytes an entry below
      921600, and a part was closed only when the next entry would have passed that. */
  lemma PartsFitInBytes(items: seq<Item>, i: nat)
    requires i < |Packed([], items)|
    ensures var part := Packed([], items)[i];
      |part| == 1 || Bytes(part) + 10 * |part| <= 921600
    ensures i + 1 < |Packed([], items)| ==>
      var part, next := Packed([], items)[i], Packed([], items)[i + 1];
      next != [] && Bytes(part) + 10 * |part| + |next[0].key| + |next[0].data| + 10 > 921600
  {
    PackedIsGreedy([], items);
    var parts := Packed([], items);
    assert Fits(parts[i]);
    SizeMeaning(parts[i]);
    if i + 1 < |parts| { assert NoRoom(parts, i); }
  }

  /** Any two neighbouring parts together exceed the limit, so no part could be merged
      with the next. */
  lemma NeighboursExceedLimit(items: seq<Item>, i: nat)
    requires i < |Packed([], items)| - 1
    ensures var parts := Packed([], items); Size(parts[i]) + Size(parts[i + 1]) > MAX_SIZE
  {
    PackedIsGreedy([], items);
    var parts := Packed([], items);
    assert NoRoom(parts, i);
    SizeOfPrefix(parts[i + 1], 1);
    assert parts[i + 1][..1] == [parts[i + 1][0]];
    SizeOfOne(parts[i + 1][0]);
  }

  // ----- nothing is lost

  /** What reading the parts in order yields. */
  function MergeAll(parts: seq<Data>): Data {
    if parts == [] then map[] else parts[0] + MergeAll(parts[1..])
  }

  lemma {:induction false} ToMapConcat(a: seq<Item>, b: seq<Item>)
    ensures ToMap(a + b) == ToMap(a) + ToMap(b)
  {
    if b == [] {
      assert a + b == a;
    } else {
      ToMapConcat(a, b[..|b| - 1]);
      assert (a + b)[..|a + b| - 1] == a + b[..|b| - 1];
    }
  }

  lemma {:induction false} MergedIsConcat(parts: seq<seq<Item>>)
    ensures MergeAll(Maps(parts)) == ToMap(Concat(parts))
  {
    if parts != [] {
      assert Maps(parts)[1..] == Maps(parts[1..]);
      MergedIsConcat(parts[1..]);
      ToMapConcat(parts[0], Concat(parts[1..]));
    }
  }

  ghost predicate DistinctKeys(items: seq<Item>) {
    forall i, j | 0 <= i < j < |items| :: items[i].key != items[j].key
  }

  lemma {:induction false} KeysOf(items: seq<Item>)
    ensures forall k :: k in ToMap(items) <==> exists i | 0 <= i < |items| :: items[i].key == k
  {
    if items != [] { KeysOf(items[..|items| - 1]); }
  }

  lemma {:induction false} PartKeysDisjoint(parts: seq<seq<Item>>, i: nat, j: nat)
    requires i < j < |parts| && DistinctKeys(Concat(parts))
    ensures ToMap(parts[i]).Keys !! ToMap(parts[j]).Keys
  {
    var all, rest := Concat(parts), Concat(parts[1..]);
    assert forall n | 0 <= n < |rest| :: all[|parts[0]| + n] == rest[n];
    if i > 0 {
      PartKeysDisjoint(parts[1..], i - 1, j - 1);
    } else {
      forall k | k in ToMap(parts[0]) ensures k !in ToMap(parts[j]) {
        KeysOf(parts[0]);
        var m :| 0 <= m < |parts[0]| && parts[0][m].key == k;
        assert all[m].key == k;
        forall n | 0 <= n < |rest| ensures rest[n].key != k {
          assert all[m].key != all[|parts[0]| + n].key;
        }
        KeysOf(rest);
        if k in ToMap(parts[j]) { PartInConcat(parts[1..], j - 1, k); }
      }
    }
  }

  lemma {:induction false} PartInConcat(parts: seq<seq<Item>>, j: nat, k: string)
    requires j < |parts| && k in ToMap(parts[j])
    ensures k in ToMap(Concat(parts))
  {
    ToMapConcat(parts[0], Concat(parts[1..]));
    if j > 0 { PartInConcat(parts[1..], j - 1, k); }
  }

  /** Splitting loses nothing: the parts read in order are the whole data, and with
      distinct keys no entry is stored twice. */
  lemma SplitLosesNothing(items: seq<Item>)
    ensures MergeAll(Maps(Packed([], items))) == ToMap(items)
    ensures DistinctKeys(items) ==>
      forall i, j | 0 <= i < j < |Packed([], items)| ::
        ToMap(Packed([], items)[i]).Keys !! ToMap(Packed([], items)[j]).Keys
  {
    var parts := Packed([], items);
    PackedIsGreedy([], items);
    assert [] + items == items;
    MergedIsConcat(parts);
    if DistinctKeys(items) {
      forall i, j | 0 <= i < j < |parts| ensures ToMap(parts[i]).Keys !! ToMap(parts[j]).Keys {
        PartKeysDisjoint(parts, i, j);
      }
    }
  }

  // ----- the stored parts

  /** A ConfigMap of one kind of one deployment. The placeholder written when there is no
      data carries no deployment label. */
  datatype Part = Part(labelled: bool, data: Data)

  type Stored = map<nat, Part>

  function Numbered(parts: seq<Data>, n: nat): Stored
    requires n <= |parts|
  {
    if n == 0 then map[] else Numbered(parts, n - 1)[n - 1 := Part(true, parts[n - 1])]
  }

  /** What a successful write of `items` should leave: exactly the parts 0..n-1. Kinds
      other than profile builders keep a placeholder when there is no data. */
  function Wanted(items: seq<Item>, placeholder: bool): Stored {
    var parts := Maps(Packed([], items));
    if parts == [] && placeholder then map[0 := Part(false, map[])] else Numbered(parts, |parts|)
  }

  /** The number of parts the operator believes are stored: those labelled with the
      deployment, or one if it sees none and the kind always has one. */
  function CountParts(stored: Stored, placeholder: bool): nat {
    var n := |set i | i in stored && stored[i].labelled|;
    if n == 0 && placeholder then 1 else n
  }

  function Range(lo: nat, hi: nat): (r: set<nat>)
    ensures forall i: nat :: i in r <==> lo <= i < hi
    decreases hi
  {
    if lo >= hi then {} else Range(lo, hi - 1) + {hi - 1}
  }

  /** The new parts are written over the old ones, then the surplus is deleted by number. */
  function Updated(stored: Stored, items: seq<Item>, placeholder: bool): Stored {
    stored + Wanted(items, placeholder) - Range(|Wanted(items, placeholder)|, CountParts(stored, placeholder))
  }

  lemma {:induction false} NumberedParts(parts: seq<Data>, n: nat)
    requires n <= |parts|
    ensures Numbered(parts, n).Keys == Range(0, n) && |Numbered(parts, n)| == n
    ensures forall i: nat | i < n :: Numbered(parts, n)[i] == Part(true, parts[i])
  {
    if n > 0 {
      NumberedParts(parts, n - 1);
      assert Numbered(parts, n).Keys == Numbered(parts, n - 1).Keys + {n - 1};
    }
  }

  lemma WantedKeys(items: seq<Item>, placeholder: bool)
    ensures Wanted(items, placeholder).Keys == Range(0, |Wanted(items, placeholder)|)
    ensures CountParts(Wanted(items, placeholder), placeholder) == |Wanted(items, placeholder)|
  {
    var stored := Wanted(items, placeholder);
    var parts := Maps(Packed([], items));
    NumberedParts(parts, |parts|);
    if parts == [] && placeholder {
      assert stored.Keys == {0} == Range(0, 1);
      assert (set i | i in stored && stored[i].labelled) == {};
    } else {
      assert (set i | i in stored && stored[i].labelled) == stored.Keys;
    }
  }

  /** Updating replaces one data set by another without residue. */
  lemma UpdateReplaces(before: seq<Item>, items: seq<Item>, placeholder: bool)
    ensures Updated(Wanted(before, placeholder), items, placeholder) == Wanted(items, placeholder)
  {
    WantedKeys(before, placeholder);
    WantedKeys(items, placeholder);
  }

  datatype Op = Create(items: seq<Item>) | Update(items: seq<Item>) | Delete

  /** Deployments are created when absent, updated and deleted when present. */
  predicate Possible(present: bool, op: Op) { op.Create? <==> !present }

  function Step(stored: Stored, placeholder: bool, op: Op): Stored {
    match op
    case Create(items) => stored + Wanted(items, placeholder)
    case Update(items) => Updated(stored, items, placeholder)
    case Delete => stored - Range(0, CountParts(stored, placeholder))
  }

  predicate Present(ops: seq<Op>) { ops != [] && !ops[|ops| - 1].Delete? }

  predicate IsRun(ops: seq<Op>) {
    ops == [] || (IsRun(ops[..|ops| - 1]) && Possible(Present(ops[..|ops| - 1]), ops[|ops| - 1]))
  }

  function After(placeholder: bool, ops: seq<Op>): Stored {
    if ops == [] then map[] else Step(After(placeholder, ops[..|ops| - 1]), placeholder, ops[|ops| - 1])
  }

  /** Over every run of successful creates, updates and deletes, the stored parts are
      exactly those of the last data set: numbers 0..n-1, no stale part, none missing. */
  lemma {:induction false} StoredPartsAreExact(placeholder: bool, ops: seq<Op>)
    requires IsRun(ops)
    ensures After(placeholder, ops) == if Present(ops) then Wanted(ops[|ops| - 1].items, placeholder) else map[]
  {
    if ops != [] {
      var before, op := ops[..|ops| - 1], ops[|ops| - 1];
      StoredPartsAreExact(placeholder, before);
      if Present(before) {
        var items := before[|before| - 1].items;
        WantedKeys(items, placeholder);
        if op.Update? { UpdateReplaces(items, op.items, placeholder); }
      }
    }
  }

  class PartStore {
    const placeholder: bool
    var stored: Stored

    constructor (placeholder: bool)
      ensures this.placeholder == placeholder && stored == map[]
    {
      this.placeholder, stored := placeholder, map[];
    }

    method WriteParts(parts: seq<Data>)
      modifies this
      ensures stored == old(stored) + Numbered(parts, |parts|)
    {
      for i := 0 to |parts|
        invariant stored == old(stored) + Numbered(parts, i)
      {
        stored := stored[i := Part(true, parts[i])];
      }
    }

    /** Writes the parts of `items`, creating or replacing them one by one. */
    method CreateOrUpdateConfigMaps(items: seq<Item>) returns (count: nat)
      modifies this
      ensures stored == old(stored) + Wanted(items, placeholder) && count == |Wanted(items, placeholder)|
    {
      var parts := Split(items);
      if parts == [] && placeholder {
        stored := stored[0 := Part(false, map[])];
        return 1;
      }
      WriteParts(parts);
      NumberedParts(parts, |parts|);
      count := |parts|;
    }

    method UpdateDeployment(items: seq<Item>)
      modifies this
      ensures stored == Updated(old(stored), items, placeholder)
    {
      var existing := CountParts(stored, placeholder);
      var count := CreateOrUpdateConfigMaps(items);
      DeleteParts(count, existing);
    }

    method DeleteParts(lo: nat, hi: nat)
      modifies this
      ensures stored == old(stored) - Range(lo, hi)
    {
      var i := lo;
      while i < hi
        invariant lo <= i && (i <= hi || i == lo)
        invariant stored == old(stored) - Range(lo, i)
      {
        assert Range(lo, i + 1) == Range(lo, i) + {i};
        stored := stored - {i};
        i := i + 1;
      }
      assert Range(lo, i) == Range(lo, hi);
    }

    method DeleteDeployment()
      modifies this
      ensures stored == old(stored) - Range(0, CountParts(old(stored), placeholder))
    {
      DeleteParts(0, CountParts(stored, placeholder));
    }
  }
}
