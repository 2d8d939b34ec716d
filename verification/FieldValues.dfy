/** Field values: what is accepted, the one text each is stored as, and the words it is
    found by. */
module FieldValues {
  import opened Wrappers
  import opened Text
  import opened Json
  import opened Tables
  import Utf8

  datatype ValueLimits = ValueLimits(maxBytes: int, maxDepth: int, maxListItems: int, maxObjectKeys: int)

  predicate Container(v: Json) {
    v.JList? || v.JObject?
  }

  // ---- the checks, in the order they are made ----------------------------------------

  /** The first limit a value breaks, if it breaks one. */
  function Check(v: Json, limits: ValueLimits, depth: int): Option<ValueLimit>
    decreases v, 1
  {
    if depth > limits.maxDepth then Some(DepthLimit)
    else
      match v
      case JObject(entries) =>
        if |entries| > limits.maxObjectKeys then Some(ObjectKeysLimit) else CheckEntries(entries, limits, depth)
      case JList(items) =>
        if |items| > limits.maxListItems then Some(ListItemsLimit) else CheckItems(items, limits, depth)
      case JNonFinite => Some(TypeLimit)
      case _ => None
  }

  function CheckEntries(entries: seq<Entry>, limits: ValueLimits, depth: int): Option<ValueLimit>
    decreases entries, 0
  {
    if entries == [] then None
    else if entries[0].value.JObject? then Some(TypeLimit)
    else
      var first := Check(entries[0].value, limits, depth + 1);
      if first.Some? then first else CheckEntries(entries[1..], limits, depth)
  }

  function CheckItems(items: seq<Json>, limits: ValueLimits, depth: int): Option<ValueLimit>
    decreases items, 0
  {
    if items == [] then None
    else if Container(items[0]) then Some(TypeLimit)
    else
      var first := Check(items[0], limits, depth + 1);
      if first.Some? then first else CheckItems(items[1..], limits, depth)
  }

  // ---- what that accepts --------------------------------------------------------------

  predicate FiniteScalar(v: Json) {
    !Container(v) && !v.JNonFinite?
  }

  predicate FlatList(v: Json, limits: ValueLimits) {
    v.JList? && |v.items| <= limits.maxListItems && forall i :: 0 <= i < |v.items| ==> FiniteScalar(v.items[i])
  }

  predicate FlatValue(v: Json, limits: ValueLimits) {
    FiniteScalar(v) || FlatList(v, limits)
  }

  predicate FlatObject(v: Json, limits: ValueLimits) {
    v.JObject? && |v.entries| <= limits.maxObjectKeys
    && forall i :: 0 <= i < |v.entries| ==> FlatValue(v.entries[i].value, limits)
  }

  /** Container nesting: a bare scalar is 1, a list of scalars 2. */
  function Depth(v: Json): (d: int)
    ensures d >= 1
    decreases v, 1
  {
    match v
    case JList(items) => 1 + DeepestItem(items)
    case JObject(entries) => 1 + DeepestEntry(entries)
    case _ => 1
  }

  function DeepestItem(items: seq<Json>): (d: int)
    ensures d >= 0
    decreases items, 0
  {
    if items == [] then 0 else Max(Depth(items[0]), DeepestItem(items[1..]))
  }

  function DeepestEntry(entries: seq<Entry>): (d: int)
    ensures d >= 0
    decreases entries, 0
  {
    if entries == [] then 0 else Max(Depth(entries[0].value), DeepestEntry(entries[1..]))
  }

  /** The shallow shape, within every limit but the one on bytes. */
  predicate Shallow(v: Json, limits: ValueLimits) {
    (FlatValue(v, limits) || FlatObject(v, limits)) && Depth(v) <= limits.maxDepth
  }

  lemma {:induction false} CheckItemsAccepts(items: seq<Json>, limits: ValueLimits, depth: int)
    ensures CheckItems(items, limits, depth) == None <==>
            (forall i :: 0 <= i < |items| ==> FiniteScalar(items[i])) && (items == [] || depth + 1 <= limits.maxDepth)
  {
    if items != [] {
      CheckItemsAccepts(items[1..], limits, depth);
      assert forall i :: 0 < i < |items| ==> items[i] == items[1..][i - 1];
    }
  }

  lemma {:induction false} ListDepth(items: seq<Json>)
    requires forall i :: 0 <= i < |items| ==> FiniteScalar(items[i])
    ensures DeepestItem(items) == if items == [] then 0 else 1
  {
    if items != [] { ListDepth(items[1..]); }
  }

  lemma {:induction false} CheckFlatAccepts(v: Json, limits: ValueLimits, depth: int)
    requires !v.JObject?
    ensures Check(v, limits, depth) == None <==> FlatValue(v, limits) && depth + Depth(v) - 1 <= limits.maxDepth
  {
    if v.JList? {
      CheckItemsAccepts(v.items, limits, depth);
      if FlatList(v, limits) { ListDepth(v.items); }
    }
  }

  lemma {:induction false} CheckEntriesAccepts(entries: seq<Entry>, limits: ValueLimits, depth: int)
    ensures CheckEntries(entries, limits, depth) == None <==>
            (forall i :: 0 <= i < |entries| ==> FlatValue(entries[i].value, limits))
            && (entries == [] || depth + DeepestEntry(entries) <= limits.maxDepth)
  {
    if entries != [] {
      CheckEntriesAccepts(entries[1..], limits, depth);
      assert forall i :: 0 < i < |entries| ==> entries[i] == entries[1..][i - 1];
      if !entries[0].value.JObject? { CheckFlatAccepts(entries[0].value, limits, depth + 1); }
    }
  }

  /** The checks refuse exactly what is not shallow or is over a limit. */
  lemma CheckAccepts(v: Json, limits: ValueLimits)
    ensures Check(v, limits, 1) == None <==> Shallow(v, limits)
  {
    if v.JObject? {
      CheckEntriesAccepts(v.entries, limits, 1);
      assert Depth(v) == 1 + DeepestEntry(v.entries);
      assert !FlatValue(v, limits);
    } else {
      CheckFlatAccepts(v, limits, 1);
    }
  }

  // ---- the canonical text ---------------------------------------------------------------

  function InsertEntry(e: Entry, entries: seq<Entry>): seq<Entry> {
    if entries == [] || Less(e.key, entries[0].key) then [e] + entries
    else [entries[0]] + InsertEntry(e, entries[1..])
  }

  function SortEntries(entries: seq<Entry>): seq<Entry> {
    if entries == [] then [] else InsertEntry(entries[0], SortEntries(entries[1..]))
  }

  /** What sort_keys does, at every level. */
  function Sorted(v: Json): Json
    decreases v, 1
  {
    match v
    case JList(items) => JList(SortedItems(items))
    case JObject(entries) => JObject(SortEntries(SortedMembers(entries)))
    case _ => v
  }

  function SortedItems(items: seq<Json>): seq<Json>
    decreases items, 0
  {
    if items == [] then [] else [Sorted(items[0])] + SortedItems(items[1..])
  }

  function SortedMembers(entries: seq<Entry>): seq<Entry>
    decreases entries, 0
  {
    if entries == [] then []
    else [Entry(entries[0].key, Sorted(entries[0].value))] + SortedMembers(entries[1..])
  }

  function Canonical(v: Json): string {
    Render(Sorted(v))
  }

  /** The stored text of a value, or the limit it breaks. */
  function ValidateValue(v: Json, limits: ValueLimits): Result<string, Error> {
    var broken := Check(v, limits, 1);
    if broken.Some? then Failure(InvalidFieldValue(broken.value))
    else if |Utf8.Encode(Canonical(v))| > limits.maxBytes then Failure(InvalidFieldValue(BytesLimit))
    else Success(Canonical(v))
  }

  function DeriveValueType(v: Json): ValueType {
    match v
    case JNull => NullType
    case JBool(_) => BooleanType
    case JNumber(_) => NumberType
    case JNonFinite => NumberType
    case JString(_) => StringType
    case JList(_) => ListType
    case JObject(_) => ObjectType
  }

  /** A value as Python holds it: numbers spelled as its encoder spells them, and no key
      twice in one dict. */
  ghost predicate Decoded(v: Json)
    decreases v
  {
    match v
    case JNumber(spelling) => IsNumber(spelling)
    case JList(items) => forall i :: 0 <= i < |items| ==> Decoded(items[i])
    case JObject(entries) =>
      DistinctKeys(entries) && forall i :: 0 <= i < |entries| ==> Decoded(entries[i].value)
    case _ => true
  }

  ghost predicate DistinctKeys(entries: seq<Entry>) {
    forall i, j :: 0 <= i < j < |entries| ==> entries[i].key != entries[j].key
  }

  /** The same JSON value: objects are compared without regard to the order of their
      members, everything else as it is. */
  ghost predicate SameValue(a: Json, b: Json) {
    if a.JObject? && b.JObject? then multiset(a.entries) == multiset(b.entries) else a == b
  }

  lemma {:induction false} SortedFlat(v: Json, limits: ValueLimits)
    requires FlatValue(v, limits)
    ensures Sorted(v) == v
  {
    if v.JList? { SortedFlatItems(v.items); }
  }

  lemma {:induction false} SortedFlatItems(items: seq<Json>)
    requires forall i :: 0 <= i < |items| ==> FiniteScalar(items[i])
    ensures SortedItems(items) == items
  {
    if items != [] {
      SortedFlatItems(items[1..]);
      assert [items[0]] + items[1..] == items;
    }
  }

  lemma {:induction false} SortedFlatMembers(entries: seq<Entry>, limits: ValueLimits)
    requires forall i :: 0 <= i < |entries| ==> FlatValue(entries[i].value, limits)
    ensures SortedMembers(entries) == entries
  {
    if entries != [] {
      SortedFlat(entries[0].value, limits);
      SortedFlatMembers(entries[1..], limits);
      assert [entries[0]] + entries[1..] == entries;
    }
  }

  ghost predicate KeysAscend(entries: seq<Entry>) {
    forall i, j :: 0 <= i < j < |entries| ==> Less(entries[i].key, entries[j].key)
  }

  lemma {:induction false} InsertKeepsMembers(e: Entry, entries: seq<Entry>)
    ensures multiset(InsertEntry(e, entries)) == multiset(entries) + multiset{e}
  {
    if !(entries == [] || Less(e.key, entries[0].key)) {
      InsertKeepsMembers(e, entries[1..]);
      assert entries == [entries[0]] + entries[1..];
    }
  }

  lemma {:induction false} SortKeepsMembers(entries: seq<Entry>)
    ensures multiset(SortEntries(entries)) == multiset(entries)
  {
    if entries != [] {
      SortKeepsMembers(entries[1..]);
      InsertKeepsMembers(entries[0], SortEntries(entries[1..]));
      assert entries == [entries[0]] + entries[1..];
    }
  }

  lemma {:induction false} InsertKeepsOrder(e: Entry, entries: seq<Entry>)
    requires KeysAscend(entries) && forall x :: x in entries ==> x.key != e.key
    ensures KeysAscend(InsertEntry(e, entries))
  {
    if entries != [] {
      if Less(e.key, entries[0].key) {
        forall j | 0 < j < |entries| ensures Less(e.key, entries[j].key) {
          LessTransitive(e.key, entries[0].key, entries[j].key);
        }
      } else {
        LessTotal(e.key, entries[0].key);
        var rest := InsertEntry(e, entries[1..]);
        InsertKeepsOrder(e, entries[1..]);
        InsertKeepsMembers(e, entries[1..]);
        forall j | 0 <= j < |rest| ensures Less(entries[0].key, rest[j].key) {
          assert rest[j] in multiset(rest);
          assert rest[j] == e || rest[j] in entries[1..];
        }
      }
    }
  }

  lemma {:induction false} SortOrders(entries: seq<Entry>)
    requires DistinctKeys(entries)
    ensures KeysAscend(SortEntries(entries))
  {
    if entries != [] {
      SortOrders(entries[1..]);
      SortKeepsMembers(entries[1..]);
      forall x | x in SortEntries(entries[1..]) ensures x.key != entries[0].key {
        assert x in multiset(SortEntries(entries[1..]));
        assert x in entries[1..];
      }
      InsertKeepsOrder(entries[0], SortEntries(entries[1..]));
    }
  }

  /** There is one way to put members in order. */
  lemma {:induction false} OrderIsUnique(a: seq<Entry>, b: seq<Entry>)
    requires KeysAscend(a) && KeysAscend(b) && multiset(a) == multiset(b)
    ensures a == b
  {
    if a == [] || b == [] {
      assert |multiset(a)| == |multiset(b)|;
    } else {
      SameFirst(a, b);
      assert a == [a[0]] + a[1..] && b == [b[0]] + b[1..];
      assert multiset(a[1..]) == multiset(a) - multiset{a[0]};
      assert multiset(b[1..]) == multiset(b) - multiset{b[0]};
      OrderIsUnique(a[1..], b[1..]);
    }
  }

  lemma SameFirst(a: seq<Entry>, b: seq<Entry>)
    requires a != [] && b != [] && KeysAscend(a) && KeysAscend(b) && multiset(a) == multiset(b)
    ensures a[0] == b[0]
  {
    assert a[0] in multiset(b) && b[0] in multiset(a);
    var i :| 0 <= i < |b| && b[i] == a[0];
    var j :| 0 <= j < |a| && a[j] == b[0];
    if i > 0 && j > 0 {
      LessTransitive(a[0].key, b[0].key, a[0].key);
      LessIrreflexive(a[0].key);
    }
  }

  /** For an accepted value, sorting rearranges the members of the one object there is. */
  lemma SortedShallow(v: Json, limits: ValueLimits)
    requires Shallow(v, limits)
    ensures v.JObject? ==> Sorted(v) == JObject(SortEntries(v.entries))
    ensures !v.JObject? ==> Sorted(v) == v
  {
    if v.JObject? {
      SortedFlatMembers(v.entries, limits);
    } else {
      SortedFlat(v, limits);
    }
  }

  lemma {:induction false} RenderableFlat(v: Json, limits: ValueLimits)
    requires FlatValue(v, limits) && Decoded(v)
    ensures Renderable(v)
  {
    if v.JList? {
      forall i | 0 <= i < |v.items| ensures Renderable(v.items[i]) {
        assert FiniteScalar(v.items[i]) && Decoded(v.items[i]);
      }
    }
  }

  lemma RenderableSorted(v: Json, limits: ValueLimits)
    requires Shallow(v, limits) && Decoded(v)
    ensures Renderable(Sorted(v))
  {
    SortedShallow(v, limits);
    if v.JObject? {
      var entries := SortEntries(v.entries);
      SortKeepsMembers(v.entries);
      forall i | 0 <= i < |entries| ensures Renderable(entries[i].value) {
        assert entries[i] in multiset(entries);
        assert entries[i] in v.entries;
        var j :| 0 <= j < |v.entries| && v.entries[j] == entries[i];
        RenderableFlat(v.entries[j].value, limits);
      }
    } else {
      RenderableFlat(v, limits);
    }
  }

  /** Decoding the stored text gives the value back, up to the order of object keys. */
  lemma StoredTextDecodes(v: Json, limits: ValueLimits)
    requires Decoded(v) && ValidateValue(v, limits).Success?
    ensures Loads(ValidateValue(v, limits).value) == Some(Sorted(v))
    ensures SameValue(Sorted(v), v)
  {
    CheckAccepts(v, limits);
    RenderableSorted(v, limits);
    LoadsRendered(Sorted(v));
    SortedShallow(v, limits);
    if v.JObject? { SortKeepsMembers(v.entries); }
  }

  /** Two accepted values are stored as the same text exactly when they are the same value,
      so comparing texts neither misses nor invents a change. */
  lemma SameTextSameValue(a: Json, b: Json, limits: ValueLimits)
    requires Decoded(a) && ValidateValue(a, limits).Success?
    requires Decoded(b) && ValidateValue(b, limits).Success?
    ensures ValidateValue(a, limits).value == ValidateValue(b, limits).value <==> SameValue(a, b)
  {
    CheckAccepts(a, limits);
    CheckAccepts(b, limits);
    SortedShallow(a, limits);
    SortedShallow(b, limits);
    if Canonical(a) == Canonical(b) {
      StoredTextDecodes(a, limits);
      StoredTextDecodes(b, limits);
    }
    if SameValue(a, b) && a.JObject? {
      SortOrders(a.entries);
      SortOrders(b.entries);
      SortKeepsMembers(a.entries);
      SortKeepsMembers(b.entries);
      OrderIsUnique(SortEntries(a.entries), SortEntries(b.entries));
    }
  }
}
