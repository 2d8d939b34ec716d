/** What a value has to say, by where it stands in it, and that a search finds exactly the rows
    that say it. */
module Leaves {
  import opened Wrappers
  import opened Text
  import opened Json
  import opened Tables
  import opened Query
  import opened Projection
  import opened Search
  import opened Machine
  import opened Reachable

  /** What stands at the end of a path: at each step an index, into a list or among the members of
      an object. */
  function AtPath(v: Json, path: seq<nat>): Option<Json>
    decreases |path|
  {
    if path == [] then Some(v)
    else
      match v
      case JList(items) => if path[0] < |items| then AtPath(items[path[0]], path[1..]) else None
      case JObject(entries) => if path[0] < |entries| then AtPath(entries[path[0]].value, path[1..]) else None
      case _ => None
  }

  /** What is said right here: a scalar its spelling, if it has one, and an object its keys. */
  predicate SaysHere(v: Json, text: string) {
    match v
    case JNull => false
    case JBool(b) => text == if b then "true" else "false"
    case JNumber(spelling) => text == spelling != ""
    case JNonFinite => text == "nan"
    case JString(s) => text == s != ""
    case JList(_) => false
    case JObject(entries) => exists i :: 0 <= i < |entries| && entries[i].key == text
  }

  ghost predicate SaysAt(v: Json, path: seq<nat>, text: string) {
    AtPath(v, path).Some? && SaysHere(AtPath(v, path).value, text)
  }

  /** What is said anywhere in a value, however deep. */
  ghost predicate Says(v: Json, text: string) {
    exists path :: SaysAt(v, path, text)
  }

  // ---- the words collected are what is said -------------------------------------------------------

  lemma SaysBelow(v: Json, i: nat, child: Json, text: string)
    requires (v.JList? && i < |v.items| && child == v.items[i])
             || (v.JObject? && i < |v.entries| && child == v.entries[i].value)
    ensures Says(child, text) ==> Says(v, text)
  {
    if path :| SaysAt(child, path, text) {
      assert ([i] + path)[0] == i && ([i] + path)[1..] == path;
      assert SaysAt(v, [i] + path, text);
    }
  }

  /** Said here, or in one of the children. */
  lemma SaysUnfolded(v: Json, text: string)
    ensures Says(v, text) <==>
              || SaysHere(v, text)
              || (v.JList? && exists i :: 0 <= i < |v.items| && Says(v.items[i], text))
              || (v.JObject? && exists i :: 0 <= i < |v.entries| && Says(v.entries[i].value, text))
  {
    if SaysHere(v, text) { assert SaysAt(v, [], text); }
    if v.JList? {
      forall i | 0 <= i < |v.items| ensures Says(v.items[i], text) ==> Says(v, text) {
        SaysBelow(v, i, v.items[i], text);
      }
    }
    if v.JObject? {
      forall i | 0 <= i < |v.entries| ensures Says(v.entries[i].value, text) ==> Says(v, text) {
        SaysBelow(v, i, v.entries[i].value, text);
      }
    }
    if path :| SaysAt(v, path, text) {
      if path != [] {
        if v.JList? {
          assert SaysAt(v.items[path[0]], path[1..], text);
        } else {
          assert SaysAt(v.entries[path[0]].value, path[1..], text);
        }
      }
    }
  }

  /** The words collected from a value are what is said in it: nothing that is said is left out,
      and nothing is made up. */
  lemma {:induction false} WordsAreSaid(v: Json, text: string)
    ensures text in Words(v) <==> Says(v, text)
    decreases v, 1
  {
    SaysUnfolded(v, text);
    match v
    case JList(items) => ItemWordsAreSaid(items, text);
    case JObject(entries) => EntryWordsAreSaid(entries, text);
    case _ =>
  }

  lemma {:induction false} ItemWordsAreSaid(items: seq<Json>, text: string)
    ensures text in ItemWords(items) <==> exists i :: 0 <= i < |items| && Says(items[i], text)
    decreases items, 0
  {
    if items != [] {
      WordsAreSaid(items[0], text);
      ItemWordsAreSaid(items[1..], text);
      if i :| 0 <= i < |items[1..]| && Says(items[1..][i], text) { assert Says(items[i + 1], text); }
      if i :| 0 <= i < |items| && Says(items[i], text) {
        if i > 0 { assert items[1..][i - 1] == items[i]; }
      }
    }
  }

  lemma {:induction false} EntryWordsAreSaid(entries: seq<Entry>, text: string)
    ensures text in EntryWords(entries) <==>
              || (exists i :: 0 <= i < |entries| && entries[i].key == text)
              || exists i :: 0 <= i < |entries| && Says(entries[i].value, text)
    decreases entries, 0
  {
    if entries != [] {
      WordsAreSaid(entries[0].value, text);
      EntryWordsAreSaid(entries[1..], text);
      var rest := entries[1..];
      if i :| 0 <= i < |rest| && rest[i].key == text { assert entries[i + 1].key == text; }
      if i :| 0 <= i < |rest| && Says(rest[i].value, text) { assert Says(entries[i + 1].value, text); }
      if i :| 0 <= i < |entries| && entries[i].key == text {
        if i > 0 { assert rest[i - 1] == entries[i]; }
      }
      if i :| 0 <= i < |entries| && Says(entries[i].value, text) {
        if i > 0 { assert rest[i - 1] == entries[i]; }
      }
    }
  }

  // ---- the terms of an index text ----------------------------------------------------------------

  /** A term of a text is the stem of one of its words. */
  ghost predicate HasTerm(u: Unicode, text: string, term: string) {
    exists w :: w in Runs(text, u.isWord) && u.stem(w) == term
  }

  lemma {:induction false} StemsAre(u: Unicode, words: seq<string>, term: string)
    ensures term in Stems(u, words) <==> exists w :: w in words && u.stem(w) == term
  {
    if words != [] {
      StemsAre(u, words[1..], term);
      if w :| w in words && u.stem(w) == term {
        if w != words[0] { assert w in words[1..]; }
      }
    }
  }

  lemma BagHasTerms(u: Unicode, text: string, term: string)
    ensures term in Bag(u, text) <==> HasTerm(u, text, term)
  {
    StemsAre(u, Runs(text, u.isWord), term);
  }

  lemma {:induction false} BagOfHasTerms(u: Unicode, words: seq<string>, term: string)
    ensures term in BagOf(u, words) <==> exists text :: text in words && HasTerm(u, text, term)
  {
    if words != [] {
      BagHasTerms(u, words[0], term);
      BagOfHasTerms(u, words[1..], term);
      if text :| text in words && HasTerm(u, text, term) {
        if text != words[0] { assert text in words[1..]; }
      }
    }
  }

  /** What a field is indexed under: the terms of its key, of its description, and of everything
      its value says. */
  lemma FieldTextTerms(u: Unicode, key: string, description: string, v: Json, term: string)
    requires u.Facts()
    ensures term in Bag(u, FieldText(key, description, v)) <==>
              || HasTerm(u, key, term) || HasTerm(u, description, term)
              || exists text :: Says(v, text) && HasTerm(u, text, term)
  {
    FieldTextBag(u, key, description, v);
    BagHasTerms(u, key, term);
    BagHasTerms(u, description, term);
    BagOfHasTerms(u, Words(v), term);
    forall text ensures text in Words(v) <==> Says(v, text) {
      WordsAreSaid(v, text);
    }
  }

  // ---- what a search finds --------------------------------------------------------------------------

  /** Whether a text has a word that was typed, both stemmed. */
  ghost predicate SharesWord(u: Unicode, raw: string, text: string) {
    exists typed, word :: typed in Runs(raw, u.isWord) && word in Runs(text, u.isWord) && u.stem(typed) == u.stem(word)
  }

  /** Where a search looks: live rows of the account, and of the profile if one is named. */
  ghost predicate Searched<C>(row: Row<C>, account: string, profile: Option<string>) {
    row.owner.account == account && (profile == None || profile == Some(row.owner.profile)) && row.forgottenAt == None
  }

  lemma SharesByTerm(u: Unicode, raw: string, text: string)
    ensures SharesWord(u, raw, text)
            <==> exists typed :: typed in Runs(raw, u.isWord) && HasTerm(u, text, u.stem(typed))
  {
    if typed, word :| typed in Runs(raw, u.isWord) && word in Runs(text, u.isWord) && u.stem(typed) == u.stem(word) {
      assert HasTerm(u, text, u.stem(typed));
    }
    if typed :| typed in Runs(raw, u.isWord) && HasTerm(u, text, u.stem(typed)) {
      var word :| word in Runs(text, u.isWord) && u.stem(word) == u.stem(typed);
    }
  }

  lemma HoldsIsShares(u: Unicode, raw: string, text: string)
    ensures HoldsSomeWord(u, raw, Bag(u, text)) <==> SharesWord(u, raw, text)
  {
    SharesByTerm(u, raw, text);
    forall typed ensures u.stem(typed) in Bag(u, text) <==> HasTerm(u, text, u.stem(typed)) {
      BagHasTerms(u, text, u.stem(typed));
    }
  }

  /** Whether a field says a word that was typed: in its key, its description, or anywhere in its
      value. */
  ghost predicate FieldSays(u: Unicode, raw: string, key: string, description: string, v: Json) {
    SharesWord(u, raw, key) || SharesWord(u, raw, description)
    || exists text :: Says(v, text) && SharesWord(u, raw, text)
  }

  lemma FieldHoldsIsSays(u: Unicode, raw: string, key: string, description: string, v: Json)
    requires u.Facts()
    ensures HoldsSomeWord(u, raw, Bag(u, FieldText(key, description, v))) <==> FieldSays(u, raw, key, description, v)
  {
    forall typed
      ensures u.stem(typed) in Bag(u, FieldText(key, description, v)) <==>
                || HasTerm(u, key, u.stem(typed)) || HasTerm(u, description, u.stem(typed))
                || exists text :: Says(v, text) && HasTerm(u, text, u.stem(typed))
    {
      FieldTextTerms(u, key, description, v, u.stem(typed));
    }
    forall text
      ensures SharesWord(u, raw, text)
              <==> exists typed :: typed in Runs(raw, u.isWord) && HasTerm(u, text, u.stem(typed))
    {
      SharesByTerm(u, raw, text);
    }
  }

  /** In every reachable state a search matches a field exactly if it is a live one of the account
      (and profile) and says a word that was typed: in its key, in its description, or anywhere in
      the value its stored text decodes to. */
  lemma SearchMatchesExactly(u: Unicode, w: World, limits: Limits, raw: string, account: string,
                             profile: Option<string>, k: FieldKey)
    requires u.Facts() && IsReachable(u, w, limits) && MatchQuery(u, raw).Success?
    ensures k in Hits(u, w.db.fields, MatchQuery(u, raw).value, account, profile) <==>
              && k in w.db.fields.rows && Searched(w.db.fields.rows[k], account, profile)
              && var v := Loads(w.db.fields.rows[k].content.valueJson);
                 v.Some? && FieldSays(u, raw, k.key, w.db.fields.rows[k].content.description, v.value)
  {
    SearchIsScan(u, w, limits, raw, account, profile);
    if k in w.db.fields.rows { FieldHoldsExactly(u, k.key, w.db.fields.rows[k].content, raw); }
  }

  lemma FieldHoldsExactly(u: Unicode, key: string, c: FieldContent, raw: string)
    requires u.Facts()
    ensures FieldHolds(u, key, c, raw)
            <==> Loads(c.valueJson).Some? && FieldSays(u, raw, key, c.description, Loads(c.valueJson).value)
  {
    if Loads(c.valueJson).Some? { FieldHoldsIsSays(u, raw, key, c.description, Loads(c.valueJson).value); }
  }

  /** And a note exactly if its body has such a word. */
  lemma NoteSearchMatchesExactly(u: Unicode, w: World, limits: Limits, raw: string, account: string,
                                 profile: Option<string>, k: string)
    requires u.Facts() && IsReachable(u, w, limits) && MatchQuery(u, raw).Success?
    ensures k in Hits(u, w.db.notes, MatchQuery(u, raw).value, account, profile) <==>
              && k in w.db.notes.rows && Searched(w.db.notes.rows[k], account, profile)
              && SharesWord(u, raw, w.db.notes.rows[k].content.body)
  {
    NoteSearchIsScan(u, w, limits, raw, account, profile);
    if k in w.db.notes.rows { HoldsIsShares(u, raw, w.db.notes.rows[k].content.body); }
  }
}
