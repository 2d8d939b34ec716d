/** The words a row is found by.  The index holds the text built from the value as the
    caller ordered it, the row holds the value with its keys sorted; what agrees is the bag
    of indexed terms. */
module Projection {
  import opened Wrappers
  import opened Text
  import opened Json
  import opened FieldValues

  /** The searchable words of a value, in order, with nothing empty among them that is not
      a key. */
  function Words(v: Json): seq<string>
    decreases v, 1
  {
    match v
    case JNull => []
    case JBool(b) => [if b then "true" else "false"]
    case JList(items) => ItemWords(items)
    case JObject(entries) => EntryWords(entries)
    case JNumber(spelling) => if spelling != "" then [spelling] else []
    case JNonFinite => ["nan"]
    case JString(s) => if s != "" then [s] else []
  }

  function ItemWords(items: seq<Json>): seq<string>
    decreases items, 0
  {
    if items == [] then [] else Words(items[0]) + ItemWords(items[1..])
  }

  function EntryWords(entries: seq<Entry>): seq<string>
    decreases entries, 0
  {
    if entries == [] then [] else [entries[0].key] + Words(entries[0].value) + EntryWords(entries[1..])
  }

  lemma ItemWordsFrom(items: seq<Json>, i: nat, words: seq<string>)
    requires i < |items|
    ensures words + ItemWords(items[i..]) == words + Words(items[i]) + ItemWords(items[i + 1..])
  {
    assert items[i..][1..] == items[i + 1..];
  }

  lemma EntryWordsFrom(entries: seq<Entry>, i: nat, words: seq<string>)
    requires i < |entries|
    ensures words + EntryWords(entries[i..])
              == words + [entries[i].key] + Words(entries[i].value) + EntryWords(entries[i + 1..])
  {
    assert entries[i..][1..] == entries[i + 1..];
  }

  /** The list the loops build. */
  method CollectWords(v: Json) returns (words: seq<string>)
    ensures words == Words(v)
    decreases v
  {
    match v
    case JNull => words := [];
    case JBool(b) => words := [if b then "true" else "false"];
    case JList(items) =>
      words := [];
      for i := 0 to |items|
        invariant words + ItemWords(items[i..]) == ItemWords(items)
      {
        ItemWordsFrom(items, i, words);
        var inner := CollectWords(items[i]);
        words := words + inner;
      }
    case JObject(entries) =>
      words := [];
      for i := 0 to |entries|
        invariant words + EntryWords(entries[i..]) == EntryWords(entries)
      {
        EntryWordsFrom(entries, i, words);
        var inner := CollectWords(entries[i].value);
        words := words + [entries[i].key];
        words := words + inner;
      }
    case JNumber(spelling) => words := if spelling != "" then [spelling] else [];
    case JNonFinite => words := ["nan"];
    case JString(s) => words := if s != "" then [s] else [];
  }

  function Flatten(v: Json): string {
    Join(Words(v), " ")
  }

  /** The text a field is indexed under. */
  function FieldText(key: string, description: string, v: Json): string {
    key + " " + description + " " + Flatten(v)
  }

  // ---- bags of terms ------------------------------------------------------------------

  /** The terms the tokenizer makes of a text. */
  function Terms(u: Unicode, text: string): (r: seq<string>) {
    Stems(u, Runs(text, u.isWord))
  }

  function Stems(u: Unicode, words: seq<string>): seq<string> {
    if words == [] then [] else [u.stem(words[0])] + Stems(u, words[1..])
  }

  function Bag(u: Unicode, text: string): multiset<string> {
    multiset(Terms(u, text))
  }

  function BagOf(u: Unicode, words: seq<string>): multiset<string> {
    if words == [] then multiset{} else Bag(u, words[0]) + BagOf(u, words[1..])
  }

  lemma {:induction false} StemsOfConcat(u: Unicode, a: seq<string>, b: seq<string>)
    ensures Stems(u, a + b) == Stems(u, a) + Stems(u, b)
  {
    if a == [] {
      assert a + b == b;
    } else {
      assert (a + b)[1..] == a[1..] + b;
      StemsOfConcat(u, a[1..], b);
    }
  }

  lemma BagOfSpaced(u: Unicode, a: string, b: string)
    requires u.Facts()
    ensures Bag(u, a + " " + b) == Bag(u, a) + Bag(u, b)
  {
    RunsSplit(a, ' ', b, u.isWord);
    StemsOfConcat(u, Runs(a, u.isWord), Runs(b, u.isWord));
  }

  lemma {:induction false} BagOfJoin(u: Unicode, words: seq<string>)
    requires u.Facts()
    ensures Bag(u, Join(words, " ")) == BagOf(u, words)
  {
    if |words| == 1 {
      assert BagOf(u, words[1..]) == multiset{};
    } else if |words| > 1 {
      BagOfSpaced(u, words[0], Join(words[1..], " "));
      BagOfJoin(u, words[1..]);
    }
  }

  lemma {:induction false} BagOfConcat(u: Unicode, a: seq<string>, b: seq<string>)
    ensures BagOf(u, a + b) == BagOf(u, a) + BagOf(u, b)
  {
    if a == [] {
      assert a + b == b;
    } else {
      assert (a + b)[1..] == a[1..] + b;
      BagOfConcat(u, a[1..], b);
    }
  }

  function EntryBag(u: Unicode, e: Entry): multiset<string> {
    Bag(u, e.key) + BagOf(u, Words(e.value))
  }

  lemma {:induction false} BagOfEntries(u: Unicode, entries: seq<Entry>)
    ensures entries != [] ==>
      BagOf(u, EntryWords(entries)) == EntryBag(u, entries[0]) + BagOf(u, EntryWords(entries[1..]))
  {
    if entries != [] {
      var key, inner, rest := [entries[0].key], Words(entries[0].value), EntryWords(entries[1..]);
      BagOfConcat(u, key + inner, rest);
      BagOfConcat(u, key, inner);
      assert BagOf(u, key) == Bag(u, entries[0].key) + BagOf(u, key[1..]);
    }
  }

  lemma {:induction false} BagOfInsert(u: Unicode, e: Entry, entries: seq<Entry>)
    ensures BagOf(u, EntryWords(InsertEntry(e, entries))) == EntryBag(u, e) + BagOf(u, EntryWords(entries))
  {
    var inserted := InsertEntry(e, entries);
    BagOfEntries(u, inserted);
    if entries == [] || Less(e.key, entries[0].key) {
      assert inserted[1..] == entries;
    } else {
      assert inserted[1..] == InsertEntry(e, entries[1..]);
      BagOfInsert(u, e, entries[1..]);
      BagOfEntries(u, entries);
    }
  }

  lemma {:induction false} BagOfSort(u: Unicode, entries: seq<Entry>)
    ensures BagOf(u, EntryWords(SortEntries(entries))) == BagOf(u, EntryWords(entries))
  {
    if entries != [] {
      BagOfSort(u, entries[1..]);
      BagOfInsert(u, entries[0], SortEntries(entries[1..]));
      BagOfEntries(u, entries);
    }
  }

  /** Sorting keys changes the order of the words and not the bag of terms. */
  lemma FieldTextSorted(u: Unicode, key: string, description: string, v: Json, limits: ValueLimits)
    requires u.Facts() && Shallow(v, limits)
    ensures Bag(u, FieldText(key, description, v)) == Bag(u, FieldText(key, description, Sorted(v)))
  {
    FieldTextBag(u, key, description, v);
    FieldTextBag(u, key, description, Sorted(v));
    SortedShallow(v, limits);
    if v.JObject? { BagOfSort(u, v.entries); }
  }

  lemma FieldTextBag(u: Unicode, key: string, description: string, v: Json)
    requires u.Facts()
    ensures Bag(u, FieldText(key, description, v)) == Bag(u, key) + Bag(u, description) + BagOf(u, Words(v))
  {
    BagOfSpaced(u, key + " " + description, Flatten(v));
    BagOfSpaced(u, key, description);
    BagOfJoin(u, Words(v));
  }
}
