/** The store as one machine: its commands are the transactions the service submits, and a
    run is any sequence of them. */
module Machine {
  import opened Wrappers
  import opened Text
  import opened Tables
  import opened Erasure
  import opened Storage
  import opened Transactions
  import opened Books
  import opened EventLog
  import opened Due
  import opened Vetting
  import opened Projection
  import opened Json

  datatype Command =
    | SetFieldCmd(set_: SetRequest, outside: Outside)
    | ForgetFieldCmd(forget: ForgetRequest, outside: Outside)
    | PurgeFieldsCmd(now: Instant, limit: int, fields: set<FieldKey>)
    | WriteNoteCmd(write: WriteRequest, outside: Outside)
    | ReviseNoteCmd(revise: ReviseRequest, outside: Outside)
    | ForgetNoteCmd(forget: ForgetRequest, outside: Outside)
    | PurgeNotesCmd(now: Instant, limit: int, notes: set<string>)
    | AddPersonaCmd(owner: Owner, card: Card, cap: int)
    | UpdatePersonaCmd(owner: Owner, text: CardText, now: Instant)
    | DeletePersonaCmd(owner: Owner)
    | RecordCmd(owner: Owner, action: Action, author: Author, at: Instant)

  function Apply(t: Tables, limits: Limits, c: Command): Tables {
    match c
    case SetFieldCmd(r, o) => SetField(t, limits, r, o).After(t)
    case ForgetFieldCmd(r, o) => ForgetField(t, limits, r, o).After(t)
    case PurgeFieldsCmd(_, _, ks) => PurgeFields(t, ks).After(t)
    case WriteNoteCmd(r, o) => WriteNote(t, limits, r, o).After(t)
    case ReviseNoteCmd(r, o) => ReviseNote(t, limits, r, o).After(t)
    case ForgetNoteCmd(r, o) => ForgetNote(t, limits, r, o).After(t)
    case PurgeNotesCmd(_, _, ks) => PurgeNotes(t, ks).After(t)
    case AddPersonaCmd(owner, card, cap) => AddPersona(t, owner, card, cap).After(t)
    case UpdatePersonaCmd(owner, text, now) => UpdatePersona(t, owner, text, now).After(t)
    case DeletePersonaCmd(owner) => DeletePersona(t, owner).After(t)
    case RecordCmd(owner, action, author, at) => RecordPersonaEvent(t, limits, owner, action, author, at).After(t)
  }

  function Ops(t: Tables, limits: Limits, c: Command): seq<LogOp> {
    match c
    case SetFieldCmd(r, o) => SetField(t, limits, r, o).LogOps()
    case ForgetFieldCmd(r, o) => ForgetField(t, limits, r, o).LogOps()
    case PurgeFieldsCmd(_, _, ks) => PurgeFields(t, ks).LogOps()
    case WriteNoteCmd(r, o) => WriteNote(t, limits, r, o).LogOps()
    case ReviseNoteCmd(r, o) => ReviseNote(t, limits, r, o).LogOps()
    case ForgetNoteCmd(r, o) => ForgetNote(t, limits, r, o).LogOps()
    case PurgeNotesCmd(_, _, ks) => PurgeNotes(t, ks).LogOps()
    case AddPersonaCmd(owner, card, cap) => AddPersona(t, owner, card, cap).LogOps()
    case UpdatePersonaCmd(owner, text, now) => UpdatePersona(t, owner, text, now).LogOps()
    case DeletePersonaCmd(owner) => DeletePersona(t, owner).LogOps()
    case RecordCmd(owner, action, author, at) => RecordPersonaEvent(t, limits, owner, action, author, at).LogOps()
  }

  /** The database, and the history it does not keep. */
  datatype World = World(db: Tables, full: seq<Event>, hist: seq<Record>, deleted: set<Owner>)

  const INITIAL := World(EMPTY, [], [], {})

  function DeletedBy(t: Tables, c: Command): set<Owner> {
    if c.DeletePersonaCmd? && c.owner in t.personas then {c.owner} else {}
  }

  function Next(w: World, limits: Limits, c: Command): World {
    var ops := Ops(w.db, limits, c);
    World(Apply(w.db, limits, c), FullAfter(w.full, ops), HistAfter(w.hist, ops), w.deleted + DeletedBy(w.db, c))
  }

  /** What the callers of the transactions have made sure of: texts were vetted, a sweep
      destroys what its query returned, a persona's own events are about personas. */
  ghost predicate Possible(u: Unicode, t: Tables, c: Command) {
    match c
    case SetFieldCmd(r, _) => VettedField(u, r.write)
    case PurgeFieldsCmd(now, limit, ks) => OldestDue(t.fields.rows, now, limit, ks)
    case WriteNoteCmd(r, _) => Clean(u, r.body)
    case ReviseNoteCmd(r, _) => r.body.Some? ==> Clean(u, r.body.value)
    case PurgeNotesCmd(now, limit, ks) => OldestDue(t.notes.rows, now, limit, ks)
    case AddPersonaCmd(_, card, _) => VettedCard(u, CardText(card.displayName, card.pronouns, card.summary))
    case UpdatePersonaCmd(_, text, _) => VettedCard(u, text)
    case RecordCmd(_, action, _, _) => action.Noun() == PersonaNoun
    case _ => true
  }

  /** A run: each command possible where it is submitted. */
  ghost predicate PossibleRun(u: Unicode, w: World, limits: Limits, cs: seq<Command>)
    decreases |cs|
  {
    cs == [] || (Possible(u, w.db, cs[0]) && PossibleRun(u, Next(w, limits, cs[0]), limits, cs[1..]))
  }

  function Run(w: World, limits: Limits, cs: seq<Command>): World
    decreases |cs|
  {
    if cs == [] then w else Run(Next(w, limits, cs[0]), limits, cs[1..])
  }

  // ---- what holds in every reachable state ------------------------------------------------

  ghost function FieldKind(u: Unicode): Kind<FieldContent> {
    Kind(FieldNoun,
         (c: FieldContent) => Clean(u, c.valueJson) && Clean(u, c.description) && Loads(c.valueJson).Some?,
         (key: string, c: FieldContent, text: string) =>
           Loads(c.valueJson).Some? && Bag(u, text) == Bag(u, FieldText(key, c.description, Loads(c.valueJson).value)))
  }

  ghost function NoteKindOf(u: Unicode): Kind<NoteContent> {
    Kind(NoteNoun, (c: NoteContent) => Clean(u, c.body), (id: string, c: NoteContent, text: string) => text == c.body)
  }

  function FieldBook(w: World): Book<FieldKey, FieldContent> {
    Book(w.db.fields, w.full, w.hist, w.deleted)
  }

  function NoteBook(w: World): Book<string, NoteContent> {
    Book(w.db.notes, w.full, w.hist, w.deleted)
  }

  /** The foreign keys, and what is on the cards. */
  ghost predicate PersonasInOrder(u: Unicode, t: Tables) {
    && (forall k :: k in t.fields.rows ==> t.fields.rows[k].owner in t.personas)
    && (forall k :: k in t.notes.rows ==> t.notes.rows[k].owner in t.personas)
    && (forall o :: o in t.personas ==>
          VettedCard(u, CardText(t.personas[o].displayName, t.personas[o].pronouns, t.personas[o].summary)))
  }

  ghost predicate Good(u: Unicode, w: World, limits: Limits) {
    && Kept(FieldBook(w), FieldKind(u))
    && Kept(NoteBook(w), NoteKindOf(u))
    && Named(w.db)
    && PersonasInOrder(u, w.db)
    && Stored(w.db.log, w.full, limits.maxEntries)
    && PersonaEventsHoldNoValue(w.full)
  }

  lemma StartIsGood(u: Unicode, limits: Limits)
    ensures Good(u, INITIAL, limits)
  {
  }

  // ---- one change of one book ---------------------------------------------------------------

  ghost predicate BothKept(u: Unicode, w: World) {
    Kept(FieldBook(w), FieldKind(u)) && Kept(NoteBook(w), NoteKindOf(u))
  }

  /** A change to the fields keeps both books. */
  lemma FieldChange(u: Unicode, w: World, c: Change<FieldKey, FieldContent>, w': World)
    requires BothKept(u, w) && Allowed(FieldBook(w), FieldKind(u), c) && !c.Cascade?
    requires FieldBook(w') == Done(FieldBook(w), FieldNoun, c) && w'.db.notes == w.db.notes
    ensures BothKept(u, w')
  {
    ChangeKeeps(FieldBook(w), FieldKind(u), c);
    OtherBookKept(FieldBook(w), FieldKind(u), c, NoteBook(w), NoteKindOf(u));
  }

  lemma NoteChange(u: Unicode, w: World, c: Change<string, NoteContent>, w': World)
    requires BothKept(u, w) && Allowed(NoteBook(w), NoteKindOf(u), c) && !c.Cascade?
    requires NoteBook(w') == Done(NoteBook(w), NoteNoun, c) && w'.db.fields == w.db.fields
    ensures BothKept(u, w')
  {
    ChangeKeeps(NoteBook(w), NoteKindOf(u), c);
    OtherBookKept(NoteBook(w), NoteKindOf(u), c, FieldBook(w), FieldKind(u));
  }

  lemma OneOp(full: seq<Event>, hist: seq<Record>, op: LogOp)
    ensures FullAfter(full, [op]) == if op.Say? then Spoken(full, op.record.event) else Struck(full, op.scopes)
    ensures HistAfter(hist, [op]) == if op.Say? then Remembered(hist, op.record.event, op.record.docid) else hist
  {
    assert [op][1..] == [];
  }

  lemma TwoOps(full: seq<Event>, hist: seq<Record>, a: LogOp, b: LogOp)
    ensures FullAfter(full, [a, b]) == FullAfter(FullAfter(full, [a]), [b])
    ensures HistAfter(hist, [a, b]) == HistAfter(HistAfter(hist, [a]), [b])
  {
    assert [a, b][1..] == [b];
    OneOp(full, hist, a);
  }

  // ---- the field transactions -----------------------------------------------------------------

  lemma VettedFieldFits(u: Unicode, r: SetRequest, fieldId: string)
    requires VettedField(u, r.write)
    ensures var c := FieldContent(fieldId, r.write.description, r.write.valueJson, r.write.valueType);
            FieldKind(u).storable(c) && FieldKind(u).found(r.write.key, c, r.write.searchable)
  {
  }

  lemma InsertFieldIsInsert(w: World, limits: Limits, r: SetRequest, o: Outside, before: seq<LogOp>)
    requires InsertField(w.db, limits, r, o, before).Committed?
    ensures var after := InsertField(w.db, limits, r, o, before);
            var say := Say(Record(after.ops[|before|].record.event, w.db.fields.next + 1));
            && after.ops == before + [say]
            && FieldBook(World(after.db, FullAfter(w.full, [say]), HistAfter(w.hist, [say]), w.deleted))
               == Done(FieldBook(w), FieldNoun,
                       Insert(FieldKey(r.owner, r.write.key), NewField(r, o), r.write.searchable, say.record.event))
            && after.db.notes == w.db.notes
            && About(say.record.event, FieldNoun, NewField(r, o)) && Writes(say.record.event.action)
            && say.record.event.oldValue == None
  {
    var after := InsertField(w.db, limits, r, o, before);
    OneOp(w.full, w.hist, after.ops[|before|]);
  }

  lemma InsertFieldKeeps(u: Unicode, w: World, limits: Limits, r: SetRequest, o: Outside, before: seq<LogOp>)
    requires BothKept(u, w) && Named(w.db) && VettedField(u, r.write)
             && FieldKey(r.owner, r.write.key) !in w.db.fields.rows
    requires InsertField(w.db, limits, r, o, before).Committed?
    ensures var after := InsertField(w.db, limits, r, o, before);
            |after.ops| == |before| + 1 && after.ops == before + [after.ops[|before|]]
            && BothKept(u,
                        World(after.db, FullAfter(w.full, [after.ops[|before|]]),
                              HistAfter(w.hist, [after.ops[|before|]]), w.deleted))
  {
    InsertFieldIsInsert(w, limits, r, o, before);
    var after := InsertField(w.db, limits, r, o, before);
    var say := after.ops[|before|];
    VettedFieldFits(u, r, o.freshId);
    FieldChange(u, w, Insert(FieldKey(r.owner, r.write.key), NewField(r, o), r.write.searchable, say.record.event),
                World(after.db, FullAfter(w.full, [say]), HistAfter(w.hist, [say]), w.deleted));
  }

  lemma ReviseFieldIsRewrite(w: World, limits: Limits, r: SetRequest, o: Outside)
    requires Named(w.db) && FieldKey(r.owner, r.write.key) in w.db.fields.rows
    requires ReviseField(w.db, limits, r, o).LogOps() != []
    ensures var k := FieldKey(r.owner, r.write.key);
            var after := ReviseField(w.db, limits, r, o);
            var say := after.LogOps()[0];
            var row := RevisedField(w.db.fields.rows[k], r, o.now);
            && say.Say? && after.LogOps() == [say]
            && FieldBook(World(after.After(w.db), FullAfter(w.full, [say]), HistAfter(w.hist, [say]), w.deleted))
               == Done(FieldBook(w), FieldNoun, Rewrite(k, row, r.write.searchable, say.record.event))
            && after.After(w.db).notes == w.db.notes
            && About(say.record.event, FieldNoun, row) && Writes(say.record.event.action)
  {
    OneOp(w.full, w.hist, ReviseField(w.db, limits, r, o).LogOps()[0]);
  }

  lemma ReviseFieldKeeps(u: Unicode, w: World, limits: Limits, r: SetRequest, o: Outside)
    requires BothKept(u, w) && Named(w.db) && VettedField(u, r.write)
             && FieldKey(r.owner, r.write.key) in w.db.fields.rows
    ensures var after := ReviseField(w.db, limits, r, o);
            BothKept(u, World(after.After(w.db), FullAfter(w.full, after.LogOps()), HistAfter(w.hist, after.LogOps()),
                              w.deleted))
  {
    var k := FieldKey(r.owner, r.write.key);
    var after := ReviseField(w.db, limits, r, o);
    if after.LogOps() != [] {
      ReviseFieldIsRewrite(w, limits, r, o);
      var say := after.LogOps()[0];
      VettedFieldFits(u, r, w.db.fields.rows[k].content.fieldId);
      FieldChange(u, w, Rewrite(k, RevisedField(w.db.fields.rows[k], r, o.now), r.write.searchable, say.record.event),
                  World(after.After(w.db), FullAfter(w.full, [say]), HistAfter(w.hist, [say]), w.deleted));
    }
  }

  lemma DestroyFieldsKeeps(u: Unicode, w: World, ks: set<FieldKey>)
    requires BothKept(u, w) && ks <= w.db.fields.rows.Keys && forall k :: k in ks ==> !w.db.fields.rows[k].Live()
    ensures BothKept(u, WithFieldsDestroyed(w, ks))
  {
    OneOp(w.full, w.hist, Strike(Scopes(w.db.fields.rows, FieldNoun, ks)));
    FieldChange(u, w, Destroy(ks), WithFieldsDestroyed(w, ks));
  }

  /** A past-due row is destroyed and the key written afresh. */
  lemma ReplacePastDueShape(w: World, limits: Limits, r: SetRequest, o: Outside)
    requires FieldKey(r.owner, r.write.key) in w.db.fields.rows
    requires w.db.fields.rows[FieldKey(r.owner, r.write.key)].PastDue(o.now)
    ensures var k := FieldKey(r.owner, r.write.key);
            var strike := Strike(Scopes(w.db.fields.rows, FieldNoun, {k}));
            var w1 := WithFieldsDestroyed(w, {k});
            var after := InsertField(w1.db, limits, r, o, [strike]);
            && (after.RolledBack? ==> Next(w, limits, SetFieldCmd(r, o)) == w)
            && (after.Committed? ==>
                  |after.ops| == 2 && Next(w, limits, SetFieldCmd(r, o))
                  == World(after.db, FullAfter(w1.full, [after.ops[1]]), HistAfter(w1.hist, [after.ops[1]]), w.deleted))
  {
    var k := FieldKey(r.owner, r.write.key);
    var strike := Strike(Scopes(w.db.fields.rows, FieldNoun, {k}));
    var after := InsertField(DestroyFields(w.db, {k}), limits, r, o, [strike]);
    assert SetField(w.db, limits, r, o) == after;
    if after.Committed? {
      assert after.ops == [strike, after.ops[1]];
      TwoOps(w.full, w.hist, strike, after.ops[1]);
    }
  }

  lemma ReplacePastDueKeeps(u: Unicode, w: World, limits: Limits, r: SetRequest, o: Outside)
    requires BothKept(u, w) && Named(w.db) && VettedField(u, r.write)
    requires FieldKey(r.owner, r.write.key) in w.db.fields.rows
    requires w.db.fields.rows[FieldKey(r.owner, r.write.key)].PastDue(o.now)
    ensures BothKept(u, Next(w, limits, SetFieldCmd(r, o)))
  {
    var k := FieldKey(r.owner, r.write.key);
    ReplacePastDueShape(w, limits, r, o);
    var w1 := WithFieldsDestroyed(w, {k});
    DestroyFieldsKeeps(u, w, {k});
    var before := [Strike(Scopes(w.db.fields.rows, FieldNoun, {k}))];
    if InsertField(w1.db, limits, r, o, before).Committed? {
      InsertFieldKeeps(u, w1, limits, r, o, before);
    }
  }

  lemma AddFieldKeeps(u: Unicode, w: World, limits: Limits, r: SetRequest, o: Outside)
    requires BothKept(u, w) && Named(w.db) && VettedField(u, r.write)
    requires FieldKey(r.owner, r.write.key) !in w.db.fields.rows
    ensures BothKept(u, Next(w, limits, SetFieldCmd(r, o)))
  {
    var after := InsertField(w.db, limits, r, o, []);
    assert SetField(w.db, limits, r, o) == after;
    if after.Committed? {
      InsertFieldKeeps(u, w, limits, r, o, []);
      assert after.ops == [after.ops[0]];
    }
  }

  lemma SetFieldKeeps(u: Unicode, w: World, limits: Limits, r: SetRequest, o: Outside)
    requires BothKept(u, w) && Named(w.db) && VettedField(u, r.write)
    ensures BothKept(u, Next(w, limits, SetFieldCmd(r, o)))
  {
    var k := FieldKey(r.owner, r.write.key);
    if k !in w.db.fields.rows {
      AddFieldKeeps(u, w, limits, r, o);
    } else if w.db.fields.rows[k].PastDue(o.now) {
      ReplacePastDueKeeps(u, w, limits, r, o);
    } else {
      KnownFieldKeeps(u, w, limits, r, o);
    }
  }

  lemma KnownFieldKeeps(u: Unicode, w: World, limits: Limits, r: SetRequest, o: Outside)
    requires BothKept(u, w) && Named(w.db) && VettedField(u, r.write)
    requires FieldKey(r.owner, r.write.key) in w.db.fields.rows
    requires !w.db.fields.rows[FieldKey(r.owner, r.write.key)].PastDue(o.now)
    ensures BothKept(u, Next(w, limits, SetFieldCmd(r, o)))
  {
    ReviseFieldKeeps(u, w, limits, r, o);
    SettingIsRevising(w, limits, r, o);
  }

  lemma SettingIsRevising(w: World, limits: Limits, r: SetRequest, o: Outside)
    requires FieldKey(r.owner, r.write.key) in w.db.fields.rows
    requires !w.db.fields.rows[FieldKey(r.owner, r.write.key)].PastDue(o.now)
    ensures var after := ReviseField(w.db, limits, r, o);
            Next(w, limits, SetFieldCmd(r, o))
            == World(after.After(w.db), FullAfter(w.full, after.LogOps()), HistAfter(w.hist, after.LogOps()), w.deleted)
  {
    assert SetField(w.db, limits, r, o) == ReviseField(w.db, limits, r, o);
  }

  /** What is due is forgotten: a live row has no term. */
  lemma DueIsForgotten<K(!new), C>(s: Shelf<K, C>, now: Instant, limit: int, ks: set<K>)
    requires LiveRowsHaveNoTerm(s) && OldestDue(s.rows, now, limit, ks)
    ensures ks <= s.rows.Keys && forall k :: k in ks ==> !s.rows[k].Live()
  {
    assert ks <= DueKeys(s.rows, now);
  }

  lemma PurgeFieldsKeeps(u: Unicode, w: World, limits: Limits, now: Instant, limit: int, ks: set<FieldKey>)
    requires BothKept(u, w) && OldestDue(w.db.fields.rows, now, limit, ks)
    ensures BothKept(u, Next(w, limits, PurgeFieldsCmd(now, limit, ks)))
  {
    DueIsForgotten(w.db.fields, now, limit, ks);
    DestroyFieldsKeeps(u, w, ks);
    PurgingFieldsIsDestroying(w, limits, now, limit, ks);
  }

  lemma PurgingFieldsIsDestroying(w: World, limits: Limits, now: Instant, limit: int, ks: set<FieldKey>)
    ensures Next(w, limits, PurgeFieldsCmd(now, limit, ks)) == WithFieldsDestroyed(w, ks)
  {
  }

  /** The world once a field is hidden and its event written. */
  function WithFieldHidden(w: World, limits: Limits, k: FieldKey, now: Instant, due: Option<Instant>, e: Event): World
    requires k in w.db.fields.rows
  {
    var row := w.db.fields.rows[k];
    var say := Say(Record(e, row.docid));
    World(Said(WithFields(w.db, Hidden(w.db.fields, k, row.Forgotten(now, due))), limits, e),
          FullAfter(w.full, [say]), HistAfter(w.hist, [say]), w.deleted)
  }

  function WithFieldsDestroyed(w: World, ks: set<FieldKey>): World {
    var strike := Strike(Scopes(w.db.fields.rows, FieldNoun, ks));
    World(DestroyFields(w.db, ks), FullAfter(w.full, [strike]), HistAfter(w.hist, [strike]), w.deleted)
  }

  lemma HideFieldKeeps(u: Unicode, w: World, limits: Limits, k: FieldKey, now: Instant, due: Option<Instant>, e: Event)
    requires BothKept(u, w) && k in w.db.fields.rows && w.db.fields.rows[k].Live()
    requires About(e, FieldNoun, w.db.fields.rows[k]) && !Writes(e.action) && e.oldValue == None
    ensures BothKept(u, WithFieldHidden(w, limits, k, now, due, e))
  {
    var row := w.db.fields.rows[k];
    OneOp(w.full, w.hist, Say(Record(e, row.docid)));
    FieldChange(u, w, Hide(k, row.Forgotten(now, due), e), WithFieldHidden(w, limits, k, now, due, e));
  }

  /** Forgetting a field is hiding it, and destroying it as well if that was asked. */
  lemma ForgetFieldShape(w: World, limits: Limits, r: ForgetRequest, o: Outside)
    requires Named(w.db) && ForgetField(w.db, limits, r, o).Committed?
    ensures var k := FieldKey(r.owner, r.subject);
            var w' := Next(w, limits, ForgetFieldCmd(r, o));
            && k in w.db.fields.rows && w.db.fields.rows[k].Live()
            && exists due, e :: About(e, FieldNoun, w.db.fields.rows[k]) && !Writes(e.action) && e.oldValue == None
                 && (w' == WithFieldHidden(w, limits, k, o.now, due, e)
                     || w' == WithFieldsDestroyed(WithFieldHidden(w, limits, k, o.now, due, e), {k}))
  {
    var k := FieldKey(r.owner, r.subject);
    var after := ForgetField(w.db, limits, r, o);
    var due := r.erasure.PurgeAfter(o.now).value;
    var say := after.ops[0];
    var w1 := WithFieldHidden(w, limits, k, o.now, due, say.record.event);
    assert About(say.record.event, FieldNoun, w.db.fields.rows[k]);
    if r.erasure.DestroysNow() {
      TwoOps(w.full, w.hist, say, after.ops[1]);
      assert Next(w, limits, ForgetFieldCmd(r, o)) == WithFieldsDestroyed(w1, {k});
    } else {
      assert Next(w, limits, ForgetFieldCmd(r, o)) == w1;
    }
  }

  lemma DestroyOneFieldKeeps(u: Unicode, w: World, k: FieldKey)
    requires BothKept(u, w) && k in w.db.fields.rows && !w.db.fields.rows[k].Live()
    ensures BothKept(u, WithFieldsDestroyed(w, {k}))
  {
    DestroyFieldsKeeps(u, w, {k});
  }

  lemma HiddenFieldIsForgotten(w: World, limits: Limits, k: FieldKey, now: Instant, due: Option<Instant>, e: Event)
    requires k in w.db.fields.rows
    ensures var rows := WithFieldHidden(w, limits, k, now, due, e).db.fields.rows; k in rows && !rows[k].Live()
  {
  }

  lemma HiddenFieldDestroyedKeeps(u: Unicode, w: World, limits: Limits, k: FieldKey, now: Instant, due: Option<Instant>,
                                  e: Event)
    requires BothKept(u, w) && k in w.db.fields.rows && w.db.fields.rows[k].Live()
    requires About(e, FieldNoun, w.db.fields.rows[k]) && !Writes(e.action) && e.oldValue == None
    ensures BothKept(u, WithFieldsDestroyed(WithFieldHidden(w, limits, k, now, due, e), {k}))
  {
    HideFieldKeeps(u, w, limits, k, now, due, e);
    HiddenFieldIsForgotten(w, limits, k, now, due, e);
    DestroyOneFieldKeeps(u, WithFieldHidden(w, limits, k, now, due, e), k);
  }

  lemma ForgetFieldKeeps(u: Unicode, w: World, limits: Limits, r: ForgetRequest, o: Outside)
    requires BothKept(u, w) && Named(w.db)
    ensures BothKept(u, Next(w, limits, ForgetFieldCmd(r, o)))
  {
    if ForgetField(w.db, limits, r, o).Committed? {
      ForgetFieldShape(w, limits, r, o);
      var k := FieldKey(r.owner, r.subject);
      var w' := Next(w, limits, ForgetFieldCmd(r, o));
      var due, e :| About(e, FieldNoun, w.db.fields.rows[k]) && !Writes(e.action) && e.oldValue == None
                 && (w' == WithFieldHidden(w, limits, k, o.now, due, e)
                     || w' == WithFieldsDestroyed(WithFieldHidden(w, limits, k, o.now, due, e), {k}));
      if w' == WithFieldHidden(w, limits, k, o.now, due, e) {
        HideFieldKeeps(u, w, limits, k, o.now, due, e);
      } else {
        HiddenFieldDestroyedKeeps(u, w, limits, k, o.now, due, e);
      }
    }
  }

  // ---- the note transactions --------------------------------------------------------------------

  lemma WriteNoteKeeps(u: Unicode, w: World, limits: Limits, r: WriteRequest, o: Outside)
    requires BothKept(u, w) && Named(w.db) && Clean(u, r.body)
    ensures BothKept(u, Next(w, limits, WriteNoteCmd(r, o)))
  {
    var after := WriteNote(w.db, limits, r, o);
    if after.Committed? {
      var say := after.ops[0];
      OneOp(w.full, w.hist, say);
      NoteChange(u, w, Insert(o.freshId, NewNote(r, o), r.body, say.record.event), Next(w, limits, WriteNoteCmd(r, o)));
    }
  }

  lemma ReviseNoteIsRewrite(w: World, limits: Limits, r: ReviseRequest, o: Outside)
    requires Named(w.db) && ReviseNote(w.db, limits, r, o).LogOps() != []
    ensures var after := ReviseNote(w.db, limits, r, o);
            var say := after.LogOps()[0];
            var row := RevisedNote(w.db.notes.rows[r.noteId], r, o.now);
            && say.Say? && HasLiveNote(w.db, r.owner, r.noteId)
            && NoteBook(Next(w, limits, ReviseNoteCmd(r, o)))
               == Done(NoteBook(w), NoteNoun, Rewrite(r.noteId, row, row.content.body, say.record.event))
            && Next(w, limits, ReviseNoteCmd(r, o)).db.fields == w.db.fields
            && About(say.record.event, NoteNoun, row) && Writes(say.record.event.action)
  {
    OneOp(w.full, w.hist, ReviseNote(w.db, limits, r, o).LogOps()[0]);
  }

  lemma RevisedBodyIsClean(u: Unicode, w: World, r: ReviseRequest, now: Instant)
    requires BothKept(u, w) && HasLiveNote(w.db, r.owner, r.noteId) && (r.body.Some? ==> Clean(u, r.body.value))
    ensures Clean(u, RevisedNote(w.db.notes.rows[r.noteId], r, now).content.body)
    ensures w.db.notes.rows[r.noteId].purgeAfter == None
  {
    assert NoteKindOf(u).storable(w.db.notes.rows[r.noteId].content);
  }

  lemma ReviseNoteKeeps(u: Unicode, w: World, limits: Limits, r: ReviseRequest, o: Outside)
    requires BothKept(u, w) && Named(w.db) && (r.body.Some? ==> Clean(u, r.body.value))
    ensures BothKept(u, Next(w, limits, ReviseNoteCmd(r, o)))
  {
    var after := ReviseNote(w.db, limits, r, o);
    if after.LogOps() != [] {
      ReviseNoteIsRewrite(w, limits, r, o);
      RevisedBodyIsClean(u, w, r, o.now);
      var row' := RevisedNote(w.db.notes.rows[r.noteId], r, o.now);
      NoteChange(u, w, Rewrite(r.noteId, row', row'.content.body, after.LogOps()[0].record.event),
                 Next(w, limits, ReviseNoteCmd(r, o)));
    }
  }

  lemma DestroyNotesKeeps(u: Unicode, w: World, ks: set<string>)
    requires BothKept(u, w) && ks <= w.db.notes.rows.Keys && forall k :: k in ks ==> !w.db.notes.rows[k].Live()
    ensures BothKept(u, WithNotesDestroyed(w, ks))
  {
    OneOp(w.full, w.hist, Strike(Scopes(w.db.notes.rows, NoteNoun, ks)));
    NoteChange(u, w, Destroy(ks), WithNotesDestroyed(w, ks));
  }

  lemma PurgeNotesKeeps(u: Unicode, w: World, limits: Limits, now: Instant, limit: int, ks: set<string>)
    requires BothKept(u, w) && OldestDue(w.db.notes.rows, now, limit, ks)
    ensures BothKept(u, Next(w, limits, PurgeNotesCmd(now, limit, ks)))
  {
    DueIsForgotten(w.db.notes, now, limit, ks);
    DestroyNotesKeeps(u, w, ks);
    PurgingNotesIsDestroying(w, limits, now, limit, ks);
  }

  lemma PurgingNotesIsDestroying(w: World, limits: Limits, now: Instant, limit: int, ks: set<string>)
    ensures Next(w, limits, PurgeNotesCmd(now, limit, ks)) == WithNotesDestroyed(w, ks)
  {
  }

  /** The world once a note is hidden and its event written. */
  function WithNoteHidden(w: World, limits: Limits, k: string, now: Instant, due: Option<Instant>, e: Event): World
    requires k in w.db.notes.rows
  {
    var row := w.db.notes.rows[k];
    var say := Say(Record(e, row.docid));
    World(Said(WithNotes(w.db, Hidden(w.db.notes, k, row.Forgotten(now, due))), limits, e),
          FullAfter(w.full, [say]), HistAfter(w.hist, [say]), w.deleted)
  }

  function WithNotesDestroyed(w: World, ks: set<string>): World {
    var strike := Strike(Scopes(w.db.notes.rows, NoteNoun, ks));
    World(DestroyNotes(w.db, ks), FullAfter(w.full, [strike]), HistAfter(w.hist, [strike]), w.deleted)
  }

  lemma HideNoteKeeps(u: Unicode, w: World, limits: Limits, k: string, now: Instant, due: Option<Instant>, e: Event)
    requires BothKept(u, w) && k in w.db.notes.rows && w.db.notes.rows[k].Live()
    requires About(e, NoteNoun, w.db.notes.rows[k]) && !Writes(e.action) && e.oldValue == None
    ensures BothKept(u, WithNoteHidden(w, limits, k, now, due, e))
  {
    var row := w.db.notes.rows[k];
    OneOp(w.full, w.hist, Say(Record(e, row.docid)));
    NoteChange(u, w, Hide(k, row.Forgotten(now, due), e), WithNoteHidden(w, limits, k, now, due, e));
  }

  /** Forgetting a note is hiding it, and destroying it as well if that was asked. */
  lemma ForgetNoteShape(w: World, limits: Limits, r: ForgetRequest, o: Outside)
    requires Named(w.db) && ForgetNote(w.db, limits, r, o).Committed?
    ensures var k := r.subject;
            var w' := Next(w, limits, ForgetNoteCmd(r, o));
            && k in w.db.notes.rows && w.db.notes.rows[k].Live()
            && exists due, e :: About(e, NoteNoun, w.db.notes.rows[k]) && !Writes(e.action) && e.oldValue == None
                 && (w' == WithNoteHidden(w, limits, k, o.now, due, e)
                     || w' == WithNotesDestroyed(WithNoteHidden(w, limits, k, o.now, due, e), {k}))
  {
    var k := r.subject;
    var after := ForgetNote(w.db, limits, r, o);
    var due := r.erasure.PurgeAfter(o.now).value;
    var say := after.ops[0];
    var w1 := WithNoteHidden(w, limits, k, o.now, due, say.record.event);
    assert About(say.record.event, NoteNoun, w.db.notes.rows[k]);
    if r.erasure.DestroysNow() {
      TwoOps(w.full, w.hist, say, after.ops[1]);
      assert Next(w, limits, ForgetNoteCmd(r, o)) == WithNotesDestroyed(w1, {k});
    } else {
      assert Next(w, limits, ForgetNoteCmd(r, o)) == w1;
    }
  }

  lemma DestroyOneNoteKeeps(u: Unicode, w: World, k: string)
    requires BothKept(u, w) && k in w.db.notes.rows && !w.db.notes.rows[k].Live()
    ensures BothKept(u, WithNotesDestroyed(w, {k}))
  {
    DestroyNotesKeeps(u, w, {k});
  }

  lemma HiddenNoteIsForgotten(w: World, limits: Limits, k: string, now: Instant, due: Option<Instant>, e: Event)
    requires k in w.db.notes.rows
    ensures var rows := WithNoteHidden(w, limits, k, now, due, e).db.notes.rows; k in rows && !rows[k].Live()
  {
  }

  lemma HiddenNoteDestroyedKeeps(u: Unicode, w: World, limits: Limits, k: string, now: Instant, due: Option<Instant>,
                                 e: Event)
    requires BothKept(u, w) && k in w.db.notes.rows && w.db.notes.rows[k].Live()
    requires About(e, NoteNoun, w.db.notes.rows[k]) && !Writes(e.action) && e.oldValue == None
    ensures BothKept(u, WithNotesDestroyed(WithNoteHidden(w, limits, k, now, due, e), {k}))
  {
    HideNoteKeeps(u, w, limits, k, now, due, e);
    HiddenNoteIsForgotten(w, limits, k, now, due, e);
    DestroyOneNoteKeeps(u, WithNoteHidden(w, limits, k, now, due, e), k);
  }

  lemma ForgetNoteKeeps(u: Unicode, w: World, limits: Limits, r: ForgetRequest, o: Outside)
    requires BothKept(u, w) && Named(w.db)
    ensures BothKept(u, Next(w, limits, ForgetNoteCmd(r, o)))
  {
    if ForgetNote(w.db, limits, r, o).Committed? {
      ForgetNoteShape(w, limits, r, o);
      var k := r.subject;
      var w' := Next(w, limits, ForgetNoteCmd(r, o));
      var due, e :| About(e, NoteNoun, w.db.notes.rows[k]) && !Writes(e.action) && e.oldValue == None
                 && (w' == WithNoteHidden(w, limits, k, o.now, due, e)
                     || w' == WithNotesDestroyed(WithNoteHidden(w, limits, k, o.now, due, e), {k}));
      if w' == WithNoteHidden(w, limits, k, o.now, due, e) {
        HideNoteKeeps(u, w, limits, k, o.now, due, e);
      } else {
        HiddenNoteDestroyedKeeps(u, w, limits, k, o.now, due, e);
      }
    }
  }

  // ---- the persona transactions -------------------------------------------------------------------

  lemma DeletePersonaKeeps(u: Unicode, w: World, limits: Limits, owner: Owner)
    requires BothKept(u, w)
    ensures BothKept(u, Next(w, limits, DeletePersonaCmd(owner)))
  {
    var after := DeletePersona(w.db, owner);
    if after.ops != [] {
      OneOp(w.full, w.hist, after.ops[0]);
      ChangeKeeps(FieldBook(w), FieldKind(u), Cascade(owner));
      ChangeKeeps(NoteBook(w), NoteKindOf(u), Cascade(owner));
    }
  }

  lemma RecordKeeps(u: Unicode, w: World, limits: Limits, owner: Owner, action: Action, author: Author, at: Instant)
    requires BothKept(u, w) && action.Noun() == PersonaNoun
    ensures BothKept(u, Next(w, limits, RecordCmd(owner, action, author, at)))
  {
    var after := RecordPersonaEvent(w.db, limits, owner, action, author, at);
    OneOp(w.full, w.hist, after.ops[0]);
    OtherEventKeeps(FieldBook(w), FieldKind(u), after.ops[0].record.event, 0);
    OtherEventKeeps(NoteBook(w), NoteKindOf(u), after.ops[0].record.event, 0);
  }

  lemma CardsKeepBooks(u: Unicode, w: World, limits: Limits, c: Command)
    requires BothKept(u, w) && (c.AddPersonaCmd? || c.UpdatePersonaCmd?)
    ensures BothKept(u, Next(w, limits, c))
  {
    assert FieldBook(Next(w, limits, c)) == FieldBook(w) && NoteBook(Next(w, limits, c)) == NoteBook(w);
  }

  lemma BooksKept(u: Unicode, w: World, limits: Limits, c: Command)
    requires BothKept(u, w) && Named(w.db) && Possible(u, w.db, c)
    ensures BothKept(u, Next(w, limits, c))
  {
    match c
    case SetFieldCmd(r, o) => SetFieldKeeps(u, w, limits, r, o);
    case ForgetFieldCmd(r, o) => ForgetFieldKeeps(u, w, limits, r, o);
    case PurgeFieldsCmd(now, limit, ks) => PurgeFieldsKeeps(u, w, limits, now, limit, ks);
    case WriteNoteCmd(r, o) => WriteNoteKeeps(u, w, limits, r, o);
    case ReviseNoteCmd(r, o) => ReviseNoteKeeps(u, w, limits, r, o);
    case ForgetNoteCmd(r, o) => ForgetNoteKeeps(u, w, limits, r, o);
    case PurgeNotesCmd(now, limit, ks) => PurgeNotesKeeps(u, w, limits, now, limit, ks);
    case DeletePersonaCmd(owner) => DeletePersonaKeeps(u, w, limits, owner);
    case RecordCmd(owner, action, author, at) => RecordKeeps(u, w, limits, owner, action, author, at);
    case _ => CardsKeepBooks(u, w, limits, c);
  }
}
