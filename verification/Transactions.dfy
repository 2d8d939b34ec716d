/** The whole transactions the stores submit, as functions from the database before to the
    database after.  The store classes are proved to compute these; everything that holds
    over runs is proved about them. */
module Transactions {
  import opened Wrappers
  import opened Tables
  import opened Erasure
  import Json

  // ---- fields -----------------------------------------------------------------------

  /** What a caller's key, description and value have become once they were accepted. */
  datatype FieldWrite = FieldWrite(key: string, description: string, valueJson: string,
                                   valueType: ValueType, searchable: string)

  datatype SetRequest = SetRequest(owner: Owner, write: FieldWrite, author: Author, pinned: Option<bool>,
                                   ceiling: Option<int>, logValues: bool)

  datatype ForgetRequest = ForgetRequest(owner: Owner, subject: string, author: Author, erasure: ErasurePolicy)

  function Ceiling(named: Option<int>, deployment: int): int {
    if named.Some? then named.value else deployment
  }

  function WithFields(t: Tables, fields: FieldShelf): Tables {
    t.(fields := fields)
  }

  function Said(t: Tables, limits: Limits, e: Event): Tables {
    t.(log := Appended(t.log, limits.maxEntries, e))
  }

  /** The rows, the values the log kept about them, and their words in the index. */
  function DestroyFields(t: Tables, ks: set<FieldKey>): Tables {
    t.(fields := Without(t.fields, ks),
       log := t.log.(events := Struck(t.log.events, Scopes(t.fields.rows, FieldNoun, ks))))
  }

  function NewField(r: SetRequest, o: Outside): FieldRow {
    Row(r.owner, r.write.key, 0,
        FieldContent(o.freshId, r.write.description, r.write.valueJson, r.write.valueType),
        r.author, r.pinned == Some(true), 1, o.now, o.now, None, None)
  }

  function FieldIdTaken(rows: map<FieldKey, FieldRow>, id: string): bool {
    exists k :: k in rows && rows[k].content.fieldId == id
  }

  function InsertField(t: Tables, limits: Limits, r: SetRequest, o: Outside, before: seq<LogOp>): Outcome<FieldRow> {
    var k := FieldKey(r.owner, r.write.key);
    var row := NewField(r, o);
    var refusal := CapError(t.fields.rows, r.owner, true, row.pinned, limits.maxFields,
                            Ceiling(r.ceiling, limits.maxPinnedFields));
    if refusal.Some? then RolledBack(refusal.value)
    else if r.owner !in t.personas || FieldIdTaken(t.fields.rows, o.freshId) then RolledBack(ConstraintFailed)
    else
      var e := Event(0, o.at, r.owner, FieldSet, r.write.key, SetAs(r.write.valueType), r.author, None);
      Committed(Said(WithFields(t, Inserted(t.fields, k, row, r.write.searchable)), limits, e),
                row.(docid := t.fields.next + 1),
                before + [Say(Record(e, t.fields.next + 1))])
  }

  function WillBePinned(pinned: bool, asked: Option<bool>): bool {
    if asked.Some? then asked.value else pinned
  }

  predicate FieldUnchanged(row: FieldRow, r: SetRequest) {
    && row.content.valueJson == r.write.valueJson
    && row.content.description == r.write.description
    && row.pinned == WillBePinned(row.pinned, r.pinned)
    && row.Live()
  }

  function RevisedField(row: FieldRow, r: SetRequest, now: Instant): FieldRow {
    row.(content := FieldContent(row.content.fieldId, r.write.description, r.write.valueJson, r.write.valueType),
         author := r.author, pinned := WillBePinned(row.pinned, r.pinned), revision := row.revision + 1,
         updatedAt := now, forgottenAt := None, purgeAfter := None)
  }

  function ReviseField(t: Tables, limits: Limits, r: SetRequest, o: Outside): Outcome<FieldRow>
    requires FieldKey(r.owner, r.write.key) in t.fields.rows
  {
    var k := FieldKey(r.owner, r.write.key);
    var row := t.fields.rows[k];
    var adding := !row.Live();
    var pinning := WillBePinned(row.pinned, r.pinned) && !row.pinned;
    var refusal := CapError(t.fields.rows, r.owner, adding, pinning, limits.maxFields,
                            Ceiling(r.ceiling, limits.maxPinnedFields));
    if FieldUnchanged(row, r) then Committed(t, row, [])
    else if refusal.Some? then RolledBack(refusal.value)
    else
      var row' := RevisedField(row, r, o.now);
      var e := Event(0, o.at, r.owner, if adding then FieldSet else FieldRevised, r.write.key,
                     RevisionNumber(row.revision + 1), r.author,
                     if r.logValues && row.content.valueJson != r.write.valueJson
                     then Some(row.content.valueJson) else None);
      Committed(Said(WithFields(t, Rewritten(t.fields, k, row', r.write.searchable)), limits, e),
                row', [Say(Record(e, row.docid))])
  }

  function SetField(t: Tables, limits: Limits, r: SetRequest, o: Outside): Outcome<FieldRow> {
    var k := FieldKey(r.owner, r.write.key);
    if k in t.fields.rows && t.fields.rows[k].PastDue(o.now) then
      InsertField(DestroyFields(t, {k}), limits, r, o, [Strike(Scopes(t.fields.rows, FieldNoun, {k}))])
    else if k in t.fields.rows then ReviseField(t, limits, r, o)
    else InsertField(t, limits, r, o, [])
  }

  function ForgetField(t: Tables, limits: Limits, r: ForgetRequest, o: Outside): Outcome<()> {
    var k := FieldKey(r.owner, r.subject);
    var due := r.erasure.PurgeAfter(o.now);
    if due.Failure? then RolledBack(due.error)
    else if k !in t.fields.rows || !t.fields.rows[k].Live() then RolledBack(FieldNotFound)
    else
      var row := t.fields.rows[k];
      var e := Event(0, o.at, r.owner, FieldForgotten, r.subject, r.erasure.Describe(due.value), r.author, None);
      var hidden := Said(WithFields(t, Hidden(t.fields, k, row.Forgotten(o.now, due.value))), limits, e);
      if r.erasure.DestroysNow() then
        Committed(DestroyFields(hidden, {k}), (),
                  [Say(Record(e, row.docid)), Strike(Scopes(hidden.fields.rows, FieldNoun, {k}))])
      else Committed(hidden, (), [Say(Record(e, row.docid))])
  }

  /** The sweeper's transaction, for the rows its SELECT returned. */
  function PurgeFields(t: Tables, ks: set<FieldKey>): Outcome<nat> {
    Committed(DestroyFields(t, ks), |ks|, [Strike(Scopes(t.fields.rows, FieldNoun, ks))])
  }

  // ---- notes ------------------------------------------------------------------------

  datatype WriteRequest = WriteRequest(owner: Owner, body: string, kind: NoteKind, author: Author,
                                       pinned: bool, ceiling: Option<int>)

  datatype ReviseRequest = ReviseRequest(owner: Owner, noteId: string, author: Author, body: Option<string>,
                                         kind: Option<NoteKind>, pinned: Option<bool>,
                                         ceiling: Option<int>, logValues: bool)

  function WithNotes(t: Tables, notes: NoteShelf): Tables {
    t.(notes := notes)
  }

  function DestroyNotes(t: Tables, ks: set<string>): Tables {
    t.(notes := Without(t.notes, ks), log := t.log.(events := Struck(t.log.events, Scopes(t.notes.rows, NoteNoun, ks))))
  }

  function NewNote(r: WriteRequest, o: Outside): NoteRow {
    Row(r.owner, o.freshId, 0, NoteContent(r.body, r.kind), r.author, r.pinned, 1, o.now, o.now, None, None)
  }

  function WriteNote(t: Tables, limits: Limits, r: WriteRequest, o: Outside): Outcome<NoteRow> {
    var row := NewNote(r, o);
    var refusal := CapError(t.notes.rows, r.owner, true, r.pinned, limits.maxNotes,
                            Ceiling(r.ceiling, limits.maxPinnedNotes));
    if refusal.Some? then RolledBack(refusal.value)
    else if r.owner !in t.personas || o.freshId in t.notes.rows then RolledBack(ConstraintFailed)
    else
      var e := Event(0, o.at, r.owner, NoteWritten, o.freshId, OfKind(r.kind), r.author, None);
      Committed(Said(WithNotes(t, Inserted(t.notes, o.freshId, row, r.body)), limits, e),
                row.(docid := t.notes.next + 1),
                [Say(Record(e, t.notes.next + 1))])
  }

  /** A live note of this persona, which is what revising and forgetting look for. */
  predicate HasLiveNote(t: Tables, owner: Owner, id: string) {
    id in t.notes.rows && t.notes.rows[id].owner == owner && t.notes.rows[id].Live()
  }

  function RevisedNote(row: NoteRow, r: ReviseRequest, now: Instant): NoteRow {
    row.(content := NoteContent(if r.body.Some? then r.body.value else row.content.body,
                                if r.kind.Some? then r.kind.value else row.content.kind),
         pinned := WillBePinned(row.pinned, r.pinned), author := r.author,
         revision := row.revision + 1, updatedAt := now)
  }

  /** The copy of the old body an event keeps: as JSON, when asked for and when it changed. */
  function ReplacedBody(logValues: bool, before: string, after: string): Option<string> {
    if logValues && after != before then Some(Json.DumpsAscii(before)) else None
  }

  function ReviseNote(t: Tables, limits: Limits, r: ReviseRequest, o: Outside): Outcome<NoteRow> {
    if !HasLiveNote(t, r.owner, r.noteId) then RolledBack(NoteNotFound)
    else
      var row := t.notes.rows[r.noteId];
      var row' := RevisedNote(row, r, o.now);
      var refusal := CapError(t.notes.rows, r.owner, false, row'.pinned && !row.pinned, limits.maxNotes,
                              Ceiling(r.ceiling, limits.maxPinnedNotes));
      if row'.content == row.content && row'.pinned == row.pinned then Committed(t, row, [])
      else if refusal.Some? then RolledBack(refusal.value)
      else
        var e := Event(0, o.at, r.owner, NoteRevised, r.noteId, RevisionNumber(row.revision + 1), r.author,
                       ReplacedBody(r.logValues, row.content.body, row'.content.body));
        Committed(Said(WithNotes(t, Rewritten(t.notes, r.noteId, row', row'.content.body)), limits, e),
                  row', [Say(Record(e, row.docid))])
  }

  function ForgetNote(t: Tables, limits: Limits, r: ForgetRequest, o: Outside): Outcome<()> {
    var due := r.erasure.PurgeAfter(o.now);
    if due.Failure? then RolledBack(due.error)
    else if !HasLiveNote(t, r.owner, r.subject) then RolledBack(NoteNotFound)
    else
      var row := t.notes.rows[r.subject];
      var e := Event(0, o.at, r.owner, NoteForgotten, r.subject, r.erasure.Describe(due.value), r.author, None);
      var hidden := Said(WithNotes(t, Hidden(t.notes, r.subject, row.Forgotten(o.now, due.value))), limits, e);
      if r.erasure.DestroysNow() then
        Committed(DestroyNotes(hidden, {r.subject}), (),
                  [Say(Record(e, row.docid)), Strike(Scopes(hidden.notes.rows, NoteNoun, {r.subject}))])
      else Committed(hidden, (), [Say(Record(e, row.docid))])
  }

  function PurgeNotes(t: Tables, ks: set<string>): Outcome<nat> {
    Committed(DestroyNotes(t, ks), |ks|, [Strike(Scopes(t.notes.rows, NoteNoun, ks))])
  }

  // ---- personas ---------------------------------------------------------------------

  function PersonasOf(personas: map<Owner, Card>, account: string): set<Owner> {
    set o | o in personas && o.account == account
  }

  function AddPersona(t: Tables, owner: Owner, card: Card, cap: int): Outcome<()> {
    if owner in t.personas then RolledBack(PersonaExists)
    else if |PersonasOf(t.personas, owner.account)| >= cap then RolledBack(LimitExceeded(PersonasCap))
    else if exists o :: o in t.personas && t.personas[o].personaId == card.personaId then RolledBack(ConstraintFailed)
    else Committed(t.(personas := t.personas[owner := card]), (), [])
  }

  datatype CardText = CardText(displayName: Option<string>, pronouns: Option<string>, summary: Option<string>)

  function UpdatePersona(t: Tables, owner: Owner, text: CardText, now: Instant): Outcome<Option<Card>> {
    if owner !in t.personas then Committed(t, None, [])
    else
      var card := t.personas[owner].(displayName := text.displayName, pronouns := text.pronouns,
                                     summary := text.summary, updatedAt := now);
      Committed(t.(personas := t.personas[owner := card]), Some(card), [])
  }

  /** The card, everything that hangs off it by foreign key, and the values the log kept. */
  function DeletePersona(t: Tables, owner: Owner): Outcome<bool> {
    if owner !in t.personas then Committed(t, false, [])
    else
      Committed(Tables(t.personas - {owner},
                       Without(t.fields, OwnedKeys(t.fields.rows, owner)),
                       Without(t.notes, OwnedKeys(t.notes.rows, owner)),
                       t.log.(events := Struck(t.log.events, {AboutPersona(owner)}))),
                true, [Strike({AboutPersona(owner)})])
  }

  /** An event written in a transaction of its own. */
  function RecordPersonaEvent(t: Tables, limits: Limits, owner: Owner, action: Action, author: Author,
                              at: Instant): Outcome<()> {
    var e := Event(0, at, owner, action, owner.profile, Blank, author, None);
    Committed(Said(t, limits, e), (), [Say(Record(e, 0))])
  }

  /** Destroying is one row at a time or all at once: the same shelf is left. */
  lemma WithoutOneMore<K, C>(s: Shelf<K, C>, ks: set<K>, k: K)
    requires k in s.rows
    ensures Without(Without(s, ks), {k}) == Without(s, ks + {k})
  {
    var once := Without(s, ks);
    assert (s.rows - ks) - {k} == s.rows - (ks + {k});
    assert Docids(s.rows, ks + {k}) == Docids(s.rows, ks) + {s.rows[k].docid};
    assert Docids(s.rows, ks) + Docids(once.rows, {k}) == Docids(s.rows, ks + {k});
    assert (s.index - Docids(s.rows, ks)) - Docids(once.rows, {k}) == s.index - Docids(s.rows, ks + {k});
  }
}
