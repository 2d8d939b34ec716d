/** Which rows a listing pages through, said on the filters as the caller gave them, and what
    every stored field has that those filters and its readers rely on. */
module Listings {
  import opened Wrappers
  import opened Text
  import opened Json
  import opened Tables
  import opened Transactions
  import opened Keys
  import opened Vetting
  import opened Storage
  import opened Paging
  import opened Machine
  import opened Reachable
  import FieldStore
  import NoteStore

  // ---- what every stored field has ------------------------------------------------------------

  /** A type column that names the type of the value the text decodes to. */
  ghost predicate TypeNamed(c: FieldContent) {
    var v := Loads(c.valueJson);
    && v.Some?
    && (c.valueType == NullType <==> v.value.JNull?)
    && (c.valueType == BooleanType <==> v.value.JBool?)
    && (c.valueType == NumberType <==> v.value.JNumber? || v.value.JNonFinite?)
    && (c.valueType == StringType <==> v.value.JString?)
    && (c.valueType == ListType <==> v.value.JList?)
    && (c.valueType == ObjectType <==> v.value.JObject?)
  }

  ghost predicate ProperRow(k: FieldKey, row: FieldRow) {
    IsStoredKey(k.key) && TypeNamed(row.content)
  }

  ghost predicate ProperFields(t: Tables) {
    forall k :: k in t.fields.rows ==> ProperRow(k, t.fields.rows[k])
  }

  lemma SetKeepsProper(u: Unicode, t: Tables, limits: Limits, r: SetRequest, o: Outside)
    requires Named(t) && ProperFields(t) && VettedField(u, r.write)
    ensures ProperFields(SetField(t, limits, r, o).After(t))
  {
    var t' := SetField(t, limits, r, o).After(t);
    var k := FieldKey(r.owner, r.write.key);
    SetFieldOnlyTouches(t, limits, r, o);
    assert TypeNamed(FieldContent("", r.write.description, r.write.valueJson, r.write.valueType));
    if k in t'.fields.rows {
      SetWritesContent(t, limits, r, o);
      assert ProperRow(k, t'.fields.rows[k]);
    }
    forall j | j in t'.fields.rows && j != k ensures ProperRow(j, t'.fields.rows[j]) {
      assert j in t.fields.rows && t'.fields.rows[j] == t.fields.rows[j];
    }
  }

  /** The row a write leaves has the written text and its type, or is the row there was. */
  lemma SetWritesContent(t: Tables, limits: Limits, r: SetRequest, o: Outside)
    requires Named(t)
    ensures var k := FieldKey(r.owner, r.write.key);
            var t' := SetField(t, limits, r, o).After(t);
            k in t'.fields.rows ==>
              || (k in t.fields.rows && t'.fields.rows[k] == t.fields.rows[k])
              || (t'.fields.rows[k].content.valueJson == r.write.valueJson
                  && t'.fields.rows[k].content.valueType == r.write.valueType)
  {
  }

  lemma ForgetKeepsProper(t: Tables, limits: Limits, r: ForgetRequest, o: Outside)
    requires Named(t) && ProperFields(t)
    ensures ProperFields(ForgetField(t, limits, r, o).After(t))
  {
    var t' := ForgetField(t, limits, r, o).After(t);
    ForgetFieldOnlyTouches(t, limits, r, o);
    forall k | k in t'.fields.rows ensures ProperRow(k, t'.fields.rows[k]) {
      assert k in t.fields.rows && t'.fields.rows[k].content == t.fields.rows[k].content;
      assert ProperRow(k, t.fields.rows[k]);
    }
  }

  lemma ProperKept(u: Unicode, t: Tables, limits: Limits, c: Command)
    requires Named(t) && ProperFields(t) && Possible(u, t, c)
    ensures ProperFields(Apply(t, limits, c))
  {
    match c
    case SetFieldCmd(r, o) => SetKeepsProper(u, t, limits, r, o);
    case ForgetFieldCmd(r, o) => ForgetKeepsProper(t, limits, r, o);
    case WriteNoteCmd(r, o) => assert Apply(t, limits, c).fields == t.fields;
    case ReviseNoteCmd(r, o) => assert Apply(t, limits, c).fields == t.fields;
    case ForgetNoteCmd(r, o) => assert Apply(t, limits, c).fields == t.fields;
    case _ => OthersOnlyRemove(t, limits, c);
  }

  lemma OthersOnlyRemove(t: Tables, limits: Limits, c: Command)
    requires c.PurgeFieldsCmd? || c.PurgeNotesCmd? || c.AddPersonaCmd? || c.UpdatePersonaCmd? || c.DeletePersonaCmd?
             || c.RecordCmd?
    ensures forall k :: k in Apply(t, limits, c).fields.rows ==>
              k in t.fields.rows && Apply(t, limits, c).fields.rows[k] == t.fields.rows[k]
  {
  }

  /** In every reachable state each field is stored under a proper key, and its type column names
      the type of the value its text decodes to. */
  lemma StoredFieldsAreProper(u: Unicode, w: World, limits: Limits)
    requires IsReachable(u, w, limits)
    ensures ProperFields(w.db)
  {
    var proper := iset v: World | Good(u, v, limits) && ProperFields(v.db);
    StartIsGood(u, limits);
    forall v, c | v in proper && Possible(u, v.db, c) ensures Next(v, limits, c) in proper {
      GoodKept(u, v, limits, c);
      ProperKept(u, v.db, limits, c);
    }
    assert Closed(u, limits, proper);
  }

  // ---- the fields a listing pages through -----------------------------------------------------------

  predicate IsBlank(u: Unicode, raw: string) {
    forall c :: c in raw ==> u.isSpace(c)
  }

  lemma BlankIsTrimmedAway(u: Unicode, raw: string)
    ensures Trim(raw, u.isSpace) == "" <==> IsBlank(u, raw)
  {
    TrimIsCore(raw, u.isSpace, Trim(raw, u.isSpace));
    if IsBlank(u, raw) {
      assert IsMargin(raw, u.isSpace, 0, 0) && raw[0..0] == "";
      TrimIsCore(raw, u.isSpace, "");
    }
    if Trim(raw, u.isSpace) == "" {
      var a, b :| IsMargin(raw, u.isSpace, a, b) && raw[a..b] == "";
      assert a == b;
    }
  }

  /** Whether every key a filter names can be a key at all. */
  ghost predicate UsableFilters(u: Unicode, f: FieldStore.FieldFilters) {
    && (f.keyPrefix.Some? ==> IsBlank(u, f.keyPrefix.value) || NormalizeKey(u, f.keyPrefix.value).Success?)
    && forall raw :: raw in f.keys ==> NormalizeKey(u, raw).Success?
  }

  ghost predicate NamesKey(u: Unicode, raw: seq<string>, key: string) {
    exists k :: k in raw && NormalizeKey(u, k) == Success(key)
  }

  lemma NamesFirstOrLater(u: Unicode, raw: seq<string>, key: string)
    requires raw != []
    ensures NamesKey(u, raw, key) <==> NormalizeKey(u, raw[0]) == Success(key) || NamesKey(u, raw[1..], key)
  {
    if k :| k in raw && NormalizeKey(u, k) == Success(key) {
      if k != raw[0] { assert k in raw[1..]; }
    }
  }

  lemma {:induction false} AllNormalized(u: Unicode, raw: seq<string>)
    ensures FieldStore.NormalizeAll(u, raw).Success? <==> forall k :: k in raw ==> NormalizeKey(u, k).Success?
  {
    if raw != [] {
      AllNormalized(u, raw[1..]);
      assert raw == [raw[0]] + raw[1..];
    }
  }

  lemma {:induction false} NormalizedAre(u: Unicode, raw: seq<string>, key: string)
    requires FieldStore.NormalizeAll(u, raw).Success?
    ensures key in FieldStore.NormalizeAll(u, raw).value <==> NamesKey(u, raw, key)
  {
    if raw != [] {
      NormalizedAre(u, raw[1..], key);
      NamesFirstOrLater(u, raw, key);
    }
  }

  /** A listing is refused exactly if a filter names what cannot be a key. */
  lemma ListingIsRefusedExactlyWhen(u: Unicode, f: FieldStore.FieldFilters)
    ensures FieldStore.Conditions(u, f).Success? <==> UsableFilters(u, f)
  {
    AllNormalized(u, f.keys);
    if f.keyPrefix.Some? { BlankIsTrimmedAway(u, f.keyPrefix.value); }
  }

  /** What a field has to be to be listed. */
  ghost predicate IsListed(u: Unicode, owner: Owner, f: FieldStore.FieldFilters, k: FieldKey, row: FieldRow) {
    && k.owner == owner
    && (row.forgottenAt == None || f.includeForgotten)
    && (f.source == None || f.source == Some(row.author.source))
    && (f.pinned == None || f.pinned == Some(row.pinned))
    && (f.keyPrefix == None || StartsAsAsked(u, k.key, f.keyPrefix.value))
    && (f.keys == [] || NamesKey(u, f.keys, k.key))
    && (f.since == None || f.since.value <= row.updatedAt)
    && (f.until == None || row.updatedAt < f.until.value)
  }

  /** A blank prefix asks for every key, any other for those that start with what it is normalised
      to. */
  ghost predicate StartsAsAsked(u: Unicode, key: string, raw: string) {
    IsBlank(u, raw) || (NormalizeKey(u, raw).Success? && NormalizeKey(u, raw).value <= key)
  }

  lemma PrefixSelects(u: Unicode, raw: string, key: string)
    requires u.Facts() && IsStoredKey(key) && FilterPrefix(u, raw).Success?
    ensures InPrefixRange(key, FilterPrefix(u, raw).value) <==> StartsAsAsked(u, key, raw)
  {
    BlankIsTrimmedAway(u, raw);
    PrefixFilterSelects(u, raw, key);
  }

  lemma ListedIsSatisfying(u: Unicode, owner: Owner, f: FieldStore.FieldFilters, k: FieldKey, row: FieldRow)
    requires u.Facts() && FieldStore.Conditions(u, f).Success?
    requires ProperRow(k, row) && row.owner == k.owner && row.subject == k.key
    ensures FieldStore.Satisfies(row, owner, FieldStore.Conditions(u, f).value) <==> IsListed(u, owner, f, k, row)
  {
    NormalizedAre(u, f.keys, k.key);
    if f.keyPrefix.Some? { PrefixSelects(u, f.keyPrefix.value, k.key); }
  }

  /** In every reachable state a listing pages through the fields that are as its filters ask, each
      where its last change and its key put it, and through nothing else. */
  lemma FieldsListed(u: Unicode, w: World, limits: Limits, owner: Owner, f: FieldStore.FieldFilters, p: Position)
    requires u.Facts() && IsReachable(u, w, limits) && FieldStore.Conditions(u, f).Success?
    ensures p in FieldStore.FieldPositions(w.db.fields.rows, owner, FieldStore.Conditions(u, f).value) <==>
              exists k :: k in w.db.fields.rows && IsListed(u, owner, f, k, w.db.fields.rows[k])
                          && p == Position(w.db.fields.rows[k].updatedAt, k.key)
  {
    ReachableIsGood(u, w, limits);
    StoredFieldsAreProper(u, w, limits);
    forall k | k in w.db.fields.rows
      ensures FieldStore.Satisfies(w.db.fields.rows[k], owner, FieldStore.Conditions(u, f).value)
              <==> IsListed(u, owner, f, k, w.db.fields.rows[k])
    {
      assert ProperRow(k, w.db.fields.rows[k]);
      ListedIsSatisfying(u, owner, f, k, w.db.fields.rows[k]);
    }
  }

  /** An export asks for all of them, or all the live ones. */
  lemma AllFieldsListed(u: Unicode, rows: map<FieldKey, FieldRow>, owner: Owner, includeForgotten: bool, p: Position)
    ensures FieldStore.Conditions(u, FieldStore.NoFieldFilters(includeForgotten))
            == Success(FieldStore.AllFields(includeForgotten))
    ensures p in FieldStore.FieldPositions(rows, owner, FieldStore.AllFields(includeForgotten)) <==>
              exists k :: k in rows && rows[k].owner == owner && (includeForgotten || rows[k].forgottenAt == None)
                          && p == Position(rows[k].updatedAt, k.key)
  {
  }

  // ---- the notes, and the events ---------------------------------------------------------------------

  lemma NotesListed(rows: map<string, NoteRow>, owner: Owner, f: NoteStore.NoteFilters, p: Position)
    ensures p in NoteStore.NotePositions(rows, owner, f) <==>
              exists k :: k in rows && p == Position(rows[k].createdAt, k)
                && rows[k].owner == owner
                && (rows[k].forgottenAt == None || f.includeForgotten)
                && (f.kind == None || f.kind == Some(rows[k].content.kind))
                && (f.source == None || f.source == Some(rows[k].author.source))
                && (f.pinned == None || f.pinned == Some(rows[k].pinned))
                && (f.since == None || f.since.value <= rows[k].createdAt)
                && (f.until == None || rows[k].createdAt < f.until.value)
  {
  }

  lemma AllNotesListed(rows: map<string, NoteRow>, owner: Owner, includeForgotten: bool, p: Position)
    ensures p in NoteStore.NotePositions(rows, owner, NoteStore.AllNotes(includeForgotten)) <==>
              exists k :: k in rows && rows[k].owner == owner && (includeForgotten || rows[k].forgottenAt == None)
                          && p == Position(rows[k].createdAt, k)
  {
  }

  lemma EventsListed(events: seq<Event>, owner: Owner, p: Position)
    ensures p in EventPositions(events, owner) <==>
              p.id == "" && exists e :: e in events && e.owner == owner && e.sequence == p.at
  {
    if e :| e in events && e.owner == owner && e.sequence == p.at && p.id == "" {
      var i :| 0 <= i < |events| && events[i] == e;
      assert Position(events[i].sequence, "") in EventPositions(events, owner);
    }
  }
}
