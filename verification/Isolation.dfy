/** What one account can learn of the others through its own operations: nothing. */
module Isolation {
  import opened Wrappers
  import opened Text
  import opened Tables
  import opened Erasure
  import opened Storage
  import opened Transactions
  import opened Books
  import opened Machine
  import opened Reachable
  import opened Search
  import FieldStore
  import NoteStore

  // ---- one account's slice of the store -----------------------------------------------------

  /** A row without its docid, with the text it is found by. */
  datatype Seen<C> = Seen(row: Row<C>, text: Option<string>)

  function Look<K, C>(s: Shelf<K, C>, row: Row<C>): Seen<C> {
    Seen(row.(docid := 0), if row.docid in s.index then Some(s.index[row.docid]) else None)
  }

  function Slice<K, C>(s: Shelf<K, C>, account: string): map<K, Seen<C>> {
    map k | k in s.rows && s.rows[k].owner.account == account :: Look(s, s.rows[k])
  }

  function Cards(personas: map<Owner, Card>, account: string): map<Owner, Card> {
    map o | o in personas && o.account == account :: personas[o]
  }

  predicate SameSlice(t1: Tables, t2: Tables, account: string) {
    && Cards(t1.personas, account) == Cards(t2.personas, account)
    && Slice(t1.fields, account) == Slice(t2.fields, account)
    && Slice(t1.notes, account) == Slice(t2.notes, account)
  }

  /** Docids and index entries belong to one row each, as they do in every reachable state. */
  ghost predicate Tidy<K(!new), C>(s: Shelf<K, C>) {
    DocidsApart(s) && IndexesLiveRows(s)
  }

  ghost predicate TidyTables(t: Tables) {
    Tidy(t.fields) && Tidy(t.notes) && Named(t)
  }

  // ---- what each statement does to a slice ----------------------------------------------------

  /** A statement about one row changes a slice at that row only. */
  lemma SliceUpdated<K(!new), C>(s: Shelf<K, C>, s': Shelf<K, C>, k: K, account: string)
    requires k in s'.rows && (k in s.rows ==> s.rows[k].owner == s'.rows[k].owner)
    requires forall j :: j != k ==> (j in s'.rows <==> j in s.rows)
    requires forall j :: j in s.rows && j != k ==> s'.rows[j] == s.rows[j] && Look(s', s.rows[j]) == Look(s, s.rows[j])
    ensures Slice(s', account)
         == if s'.rows[k].owner.account == account then Slice(s, account)[k := Look(s', s'.rows[k])]
             else Slice(s, account)
  {
  }

  lemma OtherDocids<K(!new), C>(s: Shelf<K, C>, k: K, docid: nat)
    requires DocidsApart(s) && ((k in s.rows && docid == s.rows[k].docid) || docid == s.next + 1)
    ensures forall j :: j in s.rows && j != k ==> s.rows[j].docid != docid
  {
  }

  lemma SliceInserted<K(!new), C>(s: Shelf<K, C>, k: K, row: Row<C>, text: string, account: string)
    requires Tidy(s) && k !in s.rows
    ensures Slice(Inserted(s, k, row, text), account)
         == if row.owner.account == account then Slice(s, account)[k := Seen(row.(docid := 0), Some(text))]
             else Slice(s, account)
  {
    OtherDocids(s, k, s.next + 1);
    SliceUpdated(s, Inserted(s, k, row, text), k, account);
  }

  lemma SliceRewritten<K(!new), C>(s: Shelf<K, C>, k: K, row: Row<C>, text: string, account: string)
    requires Tidy(s) && k in s.rows && row.docid == s.rows[k].docid && row.owner == s.rows[k].owner
    ensures Slice(Rewritten(s, k, row, text), account)
         == if row.owner.account == account then Slice(s, account)[k := Seen(row.(docid := 0), Some(text))]
             else Slice(s, account)
  {
    OtherDocids(s, k, row.docid);
    SliceUpdated(s, Rewritten(s, k, row, text), k, account);
  }

  lemma SliceHidden<K(!new), C>(s: Shelf<K, C>, k: K, row: Row<C>, account: string)
    requires Tidy(s) && k in s.rows && row.docid == s.rows[k].docid && row.owner == s.rows[k].owner
    ensures Slice(Hidden(s, k, row), account)
         == if row.owner.account == account then Slice(s, account)[k := Seen(row.(docid := 0), None)]
             else Slice(s, account)
  {
    OtherDocids(s, k, row.docid);
    SliceUpdated(s, Hidden(s, k, row), k, account);
  }

  lemma SliceWithout<K(!new), C>(s: Shelf<K, C>, ks: set<K>, account: string)
    requires DocidsApart(s)
    ensures Slice(Without(s, ks), account) == Slice(s, account) - ks
  {
    var s' := Without(s, ks);
    forall j | j in s'.rows ensures Look(s', s'.rows[j]) == Look(s, s.rows[j]) {
      assert s.rows[j].docid !in Docids(s.rows, ks);
    }
  }

  lemma HiddenIsTidy<K(!new), C>(s: Shelf<K, C>, k: K, row: Row<C>)
    requires Tidy(s) && k in s.rows && !row.Live() && row.docid == s.rows[k].docid
    ensures Tidy(Hidden(s, k, row))
  {
    ReplaceKeepsDocids(s, k, row, s.index - {row.docid});
    HideKeepsIndex(s, k, row);
  }

  // ---- what two states that look the same agree on ----------------------------------------------

  lemma SameRow<K, C>(s1: Shelf<K, C>, s2: Shelf<K, C>, account: string, k: K)
    requires Slice(s1, account) == Slice(s2, account)
    ensures k in s1.rows && s1.rows[k].owner.account == account <==> k in s2.rows && s2.rows[k].owner.account == account
    ensures k in s1.rows && s1.rows[k].owner.account == account ==> s1.rows[k].(docid := 0) == s2.rows[k].(docid := 0)
  {
    assert k in Slice(s1, account) <==> k in Slice(s2, account);
    if k in Slice(s1, account) {
      assert Slice(s1, account)[k] == Slice(s2, account)[k];
    }
  }

  lemma SameCaps<K, C>(s1: Shelf<K, C>, s2: Shelf<K, C>, owner: Owner, adding: bool, pinning: bool, maxRows: int,
                       maxPinned: int)
    requires Slice(s1, owner.account) == Slice(s2, owner.account)
    ensures CapError(s1.rows, owner, adding, pinning, maxRows, maxPinned)
              == CapError(s2.rows, owner, adding, pinning, maxRows, maxPinned)
  {
    forall k ensures k in LiveKeys(s1.rows, owner) <==> k in LiveKeys(s2.rows, owner)
             ensures k in PinnedKeys(s1.rows, owner) <==> k in PinnedKeys(s2.rows, owner)
    {
      SameRow(s1, s2, owner.account, k);
    }
    assert LiveKeys(s1.rows, owner) == LiveKeys(s2.rows, owner);
    assert PinnedKeys(s1.rows, owner) == PinnedKeys(s2.rows, owner);
  }

  lemma SamePersonas(p1: map<Owner, Card>, p2: map<Owner, Card>, owner: Owner)
    requires Cards(p1, owner.account) == Cards(p2, owner.account)
    ensures owner in p1 <==> owner in p2
    ensures owner in p1 ==> p1[owner] == p2[owner]
    ensures PersonasOf(p1, owner.account) == PersonasOf(p2, owner.account)
  {
    assert PersonasOf(p1, owner.account) == Cards(p1, owner.account).Keys;
    assert PersonasOf(p2, owner.account) == Cards(p2, owner.account).Keys;
    assert owner in p1 <==> owner in Cards(p1, owner.account);
    assert owner in p2 <==> owner in Cards(p2, owner.account);
  }

  // ---- whose operation it is ----------------------------------------------------------------------

  /** The account a caller's operation is for; a sweep is nobody's. */
  function AccountOf(c: Command): Option<string> {
    match c
    case SetFieldCmd(r, _) => Some(r.owner.account)
    case ForgetFieldCmd(r, _) => Some(r.owner.account)
    case PurgeFieldsCmd(_, _, _) => None
    case WriteNoteCmd(r, _) => Some(r.owner.account)
    case ReviseNoteCmd(r, _) => Some(r.owner.account)
    case ForgetNoteCmd(r, _) => Some(r.owner.account)
    case PurgeNotesCmd(_, _, _) => None
    case AddPersonaCmd(owner, _, _) => Some(owner.account)
    case UpdatePersonaCmd(owner, _, _) => Some(owner.account)
    case DeletePersonaCmd(owner) => Some(owner.account)
    case RecordCmd(owner, _, _, _) => Some(owner.account)
  }

  /** A freshly minted id is nobody's yet. */
  predicate MintsFresh(t: Tables, c: Command) {
    match c
    case SetFieldCmd(_, o) => !FieldIdTaken(t.fields.rows, o.freshId)
    case WriteNoteCmd(_, o) => o.freshId !in t.notes.rows
    case AddPersonaCmd(_, card, _) => forall o :: o in t.personas ==> t.personas[o].personaId != card.personaId
    case _ => true
  }

  /** What the caller is told, without the docid, which no response carries. */
  datatype Told =
    | AField(field: Result<FieldRow, Error>)
    | ANote(note: Result<NoteRow, Error>)
    | Plain(done: Result<(), Error>)
    | ACard(card: Result<Option<Card>, Error>)
    | ACount(removed: Result<bool, Error>)
    | Silence

  function Unnumbered<C>(r: Result<Row<C>, Error>): Result<Row<C>, Error> {
    if r.Success? then Success(r.value.(docid := 0)) else r
  }

  function Tell(t: Tables, limits: Limits, c: Command): Told {
    match c
    case SetFieldCmd(r, o) => AField(Unnumbered(SetField(t, limits, r, o).Reply()))
    case ForgetFieldCmd(r, o) => Plain(ForgetField(t, limits, r, o).Reply())
    case PurgeFieldsCmd(_, _, _) => Silence
    case WriteNoteCmd(r, o) => ANote(Unnumbered(WriteNote(t, limits, r, o).Reply()))
    case ReviseNoteCmd(r, o) => ANote(Unnumbered(ReviseNote(t, limits, r, o).Reply()))
    case ForgetNoteCmd(r, o) => Plain(ForgetNote(t, limits, r, o).Reply())
    case PurgeNotesCmd(_, _, _) => Silence
    case AddPersonaCmd(owner, card, cap) => Plain(AddPersona(t, owner, card, cap).Reply())
    case UpdatePersonaCmd(owner, text, now) => ACard(UpdatePersona(t, owner, text, now).Reply())
    case DeletePersonaCmd(owner) => ACount(DeletePersona(t, owner).Reply())
    case RecordCmd(owner, action, author, at) => Plain(RecordPersonaEvent(t, limits, owner, action, author, at).Reply())
  }

  // ---- fields -------------------------------------------------------------------------------------

  lemma InsertFieldSlice(t: Tables, limits: Limits, r: SetRequest, o: Outside, before: seq<LogOp>, account: string)
    requires Tidy(t.fields) && FieldKey(r.owner, r.write.key) !in t.fields.rows
    ensures var after := InsertField(t, limits, r, o, before);
            && after.After(t).personas == t.personas && after.After(t).notes == t.notes
            && (after.Committed? ==>
                  && Slice(after.db.fields, account)
                     == (if r.owner.account == account
                         then Slice(t.fields, account)
                              [FieldKey(r.owner, r.write.key) := Seen(NewField(r, o), Some(r.write.searchable))]
                         else Slice(t.fields, account))
                  && Unnumbered(after.Reply()) == Success(NewField(r, o)))
  {
    SliceInserted(t.fields, FieldKey(r.owner, r.write.key), NewField(r, o), r.write.searchable, account);
  }

  lemma InsertFieldSame(t1: Tables, t2: Tables, limits: Limits, r: SetRequest, o: Outside, b1: seq<LogOp>,
                        b2: seq<LogOp>)
    requires Tidy(t1.fields) && Tidy(t2.fields) && SameSlice(t1, t2, r.owner.account)
    requires FieldKey(r.owner, r.write.key) !in t1.fields.rows && FieldKey(r.owner, r.write.key) !in t2.fields.rows
    requires !FieldIdTaken(t1.fields.rows, o.freshId) && !FieldIdTaken(t2.fields.rows, o.freshId)
    ensures var a1, a2 := InsertField(t1, limits, r, o, b1), InsertField(t2, limits, r, o, b2);
            SameSlice(a1.After(t1), a2.After(t2), r.owner.account) && Unnumbered(a1.Reply()) == Unnumbered(a2.Reply())
  {
    InsertFieldSlice(t1, limits, r, o, b1, r.owner.account);
    InsertFieldSlice(t2, limits, r, o, b2, r.owner.account);
    SameCaps(t1.fields, t2.fields, r.owner, true, r.pinned == Some(true), limits.maxFields,
             Ceiling(r.ceiling, limits.maxPinnedFields));
    SamePersonas(t1.personas, t2.personas, r.owner);
  }

  lemma ReviseFieldSlice(t: Tables, limits: Limits, r: SetRequest, o: Outside, account: string)
    requires Tidy(t.fields) && Named(t) && FieldKey(r.owner, r.write.key) in t.fields.rows
    ensures var k := FieldKey(r.owner, r.write.key);
            var after := ReviseField(t, limits, r, o);
            var row' := RevisedField(t.fields.rows[k], r, o.now);
            && after.After(t).personas == t.personas && after.After(t).notes == t.notes
            && (after.Committed? && !FieldUnchanged(t.fields.rows[k], r) ==>
                  && Slice(after.db.fields, account)
                     == (if r.owner.account == account
                         then Slice(t.fields, account)[k := Seen(row'.(docid := 0), Some(r.write.searchable))]
                         else Slice(t.fields, account))
                  && Unnumbered(after.Reply()) == Success(row'.(docid := 0)))
  {
    var k := FieldKey(r.owner, r.write.key);
    SliceRewritten(t.fields, k, RevisedField(t.fields.rows[k], r, o.now), r.write.searchable, account);
  }

  lemma ReviseFieldSame(t1: Tables, t2: Tables, limits: Limits, r: SetRequest, o: Outside)
    requires TidyTables(t1) && TidyTables(t2) && SameSlice(t1, t2, r.owner.account)
    requires FieldKey(r.owner, r.write.key) in t1.fields.rows && FieldKey(r.owner, r.write.key) in t2.fields.rows
    ensures var a1, a2 := ReviseField(t1, limits, r, o), ReviseField(t2, limits, r, o);
            SameSlice(a1.After(t1), a2.After(t2), r.owner.account) && Unnumbered(a1.Reply()) == Unnumbered(a2.Reply())
  {
    var k := FieldKey(r.owner, r.write.key);
    ReviseFieldSlice(t1, limits, r, o, r.owner.account);
    ReviseFieldSlice(t2, limits, r, o, r.owner.account);
    SameRevisionReply(t1, t2, limits, r, o);
    SameRevision(t1.fields.rows[k], t2.fields.rows[k], r, o.now);
  }

  /** Both are left alone, or both would become the same row. */
  lemma SameRevision(row1: FieldRow, row2: FieldRow, r: SetRequest, now: Instant)
    requires row1.(docid := 0) == row2.(docid := 0)
    ensures FieldUnchanged(row1, r) <==> FieldUnchanged(row2, r)
    ensures RevisedField(row1, r, now).(docid := 0) == RevisedField(row2, r, now).(docid := 0)
  {
  }

  /** And both are refused for the same reason, or neither. */
  lemma SameRevisionReply(t1: Tables, t2: Tables, limits: Limits, r: SetRequest, o: Outside)
    requires TidyTables(t1) && TidyTables(t2) && SameSlice(t1, t2, r.owner.account)
    requires FieldKey(r.owner, r.write.key) in t1.fields.rows && FieldKey(r.owner, r.write.key) in t2.fields.rows
    ensures var k := FieldKey(r.owner, r.write.key);
            t1.fields.rows[k].(docid := 0) == t2.fields.rows[k].(docid := 0)
    ensures ReviseField(t1, limits, r, o).RolledBack? == ReviseField(t2, limits, r, o).RolledBack?
    ensures Unnumbered(ReviseField(t1, limits, r, o).Reply()) == Unnumbered(ReviseField(t2, limits, r, o).Reply())
  {
    var k := FieldKey(r.owner, r.write.key);
    SameRow(t1.fields, t2.fields, r.owner.account, k);
    var row1 := t1.fields.rows[k];
    SameRevision(row1, t2.fields.rows[k], r, o.now);
    SameCaps(t1.fields, t2.fields, r.owner, !row1.Live(), WillBePinned(row1.pinned, r.pinned) && !row1.pinned,
             limits.maxFields, Ceiling(r.ceiling, limits.maxPinnedFields));
  }

  lemma DestroyFieldSlice(t: Tables, k: FieldKey, account: string)
    requires TidyTables(t)
    ensures var t' := DestroyFields(t, {k});
            TidyTables(t') && Slice(t'.fields, account) == Slice(t.fields, account) - {k}
  {
    WithoutKeepsIndex(t.fields, {k});
    SliceWithout(t.fields, {k}, account);
  }

  lemma ReplaceFieldSame(t1: Tables, t2: Tables, limits: Limits, r: SetRequest, o: Outside, b1: seq<LogOp>,
                         b2: seq<LogOp>)
    requires TidyTables(t1) && TidyTables(t2) && SameSlice(t1, t2, r.owner.account)
    requires !FieldIdTaken(t1.fields.rows, o.freshId) && !FieldIdTaken(t2.fields.rows, o.freshId)
    ensures var k := FieldKey(r.owner, r.write.key);
            var d1, d2 := DestroyFields(t1, {k}), DestroyFields(t2, {k});
            var a1, a2 := InsertField(d1, limits, r, o, b1), InsertField(d2, limits, r, o, b2);
            (a1.Committed? <==> a2.Committed?) && SameSlice(a1.After(d1), a2.After(d2), r.owner.account)
            && Unnumbered(a1.Reply()) == Unnumbered(a2.Reply())
  {
    var k := FieldKey(r.owner, r.write.key);
    DestroyFieldSlice(t1, k, r.owner.account);
    DestroyFieldSlice(t2, k, r.owner.account);
    InsertFieldSame(DestroyFields(t1, {k}), DestroyFields(t2, {k}), limits, r, o, b1, b2);
  }

  lemma SetFieldSame(t1: Tables, t2: Tables, limits: Limits, r: SetRequest, o: Outside)
    requires TidyTables(t1) && TidyTables(t2) && SameSlice(t1, t2, r.owner.account)
    requires !FieldIdTaken(t1.fields.rows, o.freshId) && !FieldIdTaken(t2.fields.rows, o.freshId)
    ensures SameSlice(SetField(t1, limits, r, o).After(t1), SetField(t2, limits, r, o).After(t2), r.owner.account)
    ensures Unnumbered(SetField(t1, limits, r, o).Reply()) == Unnumbered(SetField(t2, limits, r, o).Reply())
  {
    var k := FieldKey(r.owner, r.write.key);
    SameRow(t1.fields, t2.fields, r.owner.account, k);
    if k !in t1.fields.rows {
      InsertFieldSame(t1, t2, limits, r, o, [], []);
    } else if t1.fields.rows[k].PastDue(o.now) {
      ReplaceFieldSame(t1, t2, limits, r, o, [Strike(Scopes(t1.fields.rows, FieldNoun, {k}))],
                       [Strike(Scopes(t2.fields.rows, FieldNoun, {k}))]);
    } else {
      ReviseFieldSame(t1, t2, limits, r, o);
    }
  }

  /** What forgetting leaves of a slice: the row hidden, or gone. */
  function ForgottenSlice<K, C>(slice: map<K, Seen<C>>, k: K, row: Row<C>, gone: bool): map<K, Seen<C>> {
    if gone then slice - {k} else slice[k := Seen(row.(docid := 0), None)]
  }

  lemma HideThenDestroySlice<K(!new), C>(s: Shelf<K, C>, k: K, row: Row<C>, account: string)
    requires Tidy(s) && k in s.rows && !row.Live() && row.docid == s.rows[k].docid && row.owner == s.rows[k].owner
    ensures row.owner.account == account ==> Slice(Without(Hidden(s, k, row), {k}), account) == Slice(s, account) - {k}
    ensures row.owner.account != account ==> Slice(Without(Hidden(s, k, row), {k}), account) == Slice(s, account)
  {
    HiddenIsTidy(s, k, row);
    SliceHidden(s, k, row, account);
    SliceWithout(Hidden(s, k, row), {k}, account);
    if row.owner.account != account { assert k !in Slice(s, account); }
  }

  lemma ForgetFieldSlice(t: Tables, limits: Limits, r: ForgetRequest, o: Outside, account: string)
    requires TidyTables(t) && ForgetField(t, limits, r, o).Committed?
    ensures var k := FieldKey(r.owner, r.subject);
            var t' := ForgetField(t, limits, r, o).db;
            && t'.personas == t.personas && t'.notes == t.notes && k in t.fields.rows
            && Slice(t'.fields, account)
               == if r.owner.account == account
                  then ForgottenSlice(Slice(t.fields, account), k,
                                      t.fields.rows[k].Forgotten(o.now, r.erasure.PurgeAfter(o.now).value),
                                      r.erasure.DestroysNow())
                  else Slice(t.fields, account)
  {
    var k := FieldKey(r.owner, r.subject);
    var row := t.fields.rows[k].Forgotten(o.now, r.erasure.PurgeAfter(o.now).value);
    SliceHidden(t.fields, k, row, account);
    HideThenDestroySlice(t.fields, k, row, account);
  }

  lemma ForgetFieldSame(t1: Tables, t2: Tables, limits: Limits, r: ForgetRequest, o: Outside)
    requires TidyTables(t1) && TidyTables(t2) && SameSlice(t1, t2, r.owner.account)
    ensures var a1, a2 := ForgetField(t1, limits, r, o), ForgetField(t2, limits, r, o);
            SameSlice(a1.After(t1), a2.After(t2), r.owner.account) && a1.Reply() == a2.Reply()
  {
    SameRow(t1.fields, t2.fields, r.owner.account, FieldKey(r.owner, r.subject));
    if ForgetField(t1, limits, r, o).Committed? {
      ForgetFieldSlice(t1, limits, r, o, r.owner.account);
      ForgetFieldSlice(t2, limits, r, o, r.owner.account);
    }
  }

  // ---- notes ----------------------------------------------------------------------------------------

  lemma WriteNoteSlice(t: Tables, limits: Limits, r: WriteRequest, o: Outside, account: string)
    requires Tidy(t.notes)
    ensures var after := WriteNote(t, limits, r, o);
            && after.After(t).personas == t.personas && after.After(t).fields == t.fields
            && (after.Committed? ==>
                  && Slice(after.db.notes, account)
                     == (if r.owner.account == account
                         then Slice(t.notes, account)[o.freshId := Seen(NewNote(r, o), Some(r.body))]
                         else Slice(t.notes, account))
                  && Unnumbered(after.Reply()) == Success(NewNote(r, o)))
  {
    if o.freshId !in t.notes.rows { SliceInserted(t.notes, o.freshId, NewNote(r, o), r.body, account); }
  }

  lemma WriteNoteSame(t1: Tables, t2: Tables, limits: Limits, r: WriteRequest, o: Outside)
    requires Tidy(t1.notes) && Tidy(t2.notes) && SameSlice(t1, t2, r.owner.account)
    requires o.freshId !in t1.notes.rows && o.freshId !in t2.notes.rows
    ensures var a1, a2 := WriteNote(t1, limits, r, o), WriteNote(t2, limits, r, o);
            SameSlice(a1.After(t1), a2.After(t2), r.owner.account) && Unnumbered(a1.Reply()) == Unnumbered(a2.Reply())
  {
    WriteNoteSlice(t1, limits, r, o, r.owner.account);
    WriteNoteSlice(t2, limits, r, o, r.owner.account);
    SameCaps(t1.notes, t2.notes, r.owner, true, r.pinned, limits.maxNotes, Ceiling(r.ceiling, limits.maxPinnedNotes));
    SamePersonas(t1.personas, t2.personas, r.owner);
  }

  predicate NoteUnchanged(row: NoteRow, row': NoteRow) {
    row'.content == row.content && row'.pinned == row.pinned
  }

  lemma ReviseNoteSlice(t: Tables, limits: Limits, r: ReviseRequest, o: Outside, account: string)
    requires Tidy(t.notes) && HasLiveNote(t, r.owner, r.noteId)
    ensures var after := ReviseNote(t, limits, r, o);
            var row' := RevisedNote(t.notes.rows[r.noteId], r, o.now);
            && after.After(t).personas == t.personas && after.After(t).fields == t.fields
            && (after.Committed? && !NoteUnchanged(t.notes.rows[r.noteId], row') ==>
                  && Slice(after.db.notes, account)
                     == (if r.owner.account == account
                         then Slice(t.notes, account)[r.noteId := Seen(row'.(docid := 0), Some(row'.content.body))]
                         else Slice(t.notes, account))
                  && Unnumbered(after.Reply()) == Success(row'.(docid := 0)))
  {
    var row' := RevisedNote(t.notes.rows[r.noteId], r, o.now);
    SliceRewritten(t.notes, r.noteId, row', row'.content.body, account);
  }

  lemma SameNote(t1: Tables, t2: Tables, owner: Owner, id: string)
    requires SameSlice(t1, t2, owner.account)
    ensures HasLiveNote(t1, owner, id) <==> HasLiveNote(t2, owner, id)
    ensures HasLiveNote(t1, owner, id) ==> t1.notes.rows[id].(docid := 0) == t2.notes.rows[id].(docid := 0)
  {
    SameRow(t1.notes, t2.notes, owner.account, id);
  }

  lemma ReviseNoteSame(t1: Tables, t2: Tables, limits: Limits, r: ReviseRequest, o: Outside)
    requires Tidy(t1.notes) && Tidy(t2.notes) && SameSlice(t1, t2, r.owner.account)
    ensures var a1, a2 := ReviseNote(t1, limits, r, o), ReviseNote(t2, limits, r, o);
            SameSlice(a1.After(t1), a2.After(t2), r.owner.account) && Unnumbered(a1.Reply()) == Unnumbered(a2.Reply())
  {
    SameNote(t1, t2, r.owner, r.noteId);
    if HasLiveNote(t1, r.owner, r.noteId) {
      var row1, row2 := t1.notes.rows[r.noteId], t2.notes.rows[r.noteId];
      ReviseNoteSlice(t1, limits, r, o, r.owner.account);
      ReviseNoteSlice(t2, limits, r, o, r.owner.account);
      assert RevisedNote(row1, r, o.now).(docid := 0) == RevisedNote(row2, r, o.now).(docid := 0);
      SameCaps(t1.notes, t2.notes, r.owner, false, RevisedNote(row1, r, o.now).pinned && !row1.pinned,
               limits.maxNotes, Ceiling(r.ceiling, limits.maxPinnedNotes));
    }
  }

  lemma ForgetNoteSlice(t: Tables, limits: Limits, r: ForgetRequest, o: Outside, account: string)
    requires Tidy(t.notes) && ForgetNote(t, limits, r, o).Committed?
    ensures var t' := ForgetNote(t, limits, r, o).db;
            && t'.personas == t.personas && t'.fields == t.fields && r.subject in t.notes.rows
            && Slice(t'.notes, account)
               == if r.owner.account == account
                  then ForgottenSlice(Slice(t.notes, account), r.subject,
                                      t.notes.rows[r.subject].Forgotten(o.now, r.erasure.PurgeAfter(o.now).value),
                                      r.erasure.DestroysNow())
                  else Slice(t.notes, account)
  {
    var row := t.notes.rows[r.subject].Forgotten(o.now, r.erasure.PurgeAfter(o.now).value);
    SliceHidden(t.notes, r.subject, row, account);
    HideThenDestroySlice(t.notes, r.subject, row, account);
  }

  lemma ForgetNoteSame(t1: Tables, t2: Tables, limits: Limits, r: ForgetRequest, o: Outside)
    requires Tidy(t1.notes) && Tidy(t2.notes) && SameSlice(t1, t2, r.owner.account)
    ensures var a1, a2 := ForgetNote(t1, limits, r, o), ForgetNote(t2, limits, r, o);
            SameSlice(a1.After(t1), a2.After(t2), r.owner.account) && a1.Reply() == a2.Reply()
  {
    SameNote(t1, t2, r.owner, r.subject);
    if ForgetNote(t1, limits, r, o).Committed? {
      ForgetNoteSlice(t1, limits, r, o, r.owner.account);
      ForgetNoteSlice(t2, limits, r, o, r.owner.account);
    }
  }

  // ---- personas -------------------------------------------------------------------------------------

  lemma CardsAdded(personas: map<Owner, Card>, owner: Owner, card: Card, account: string)
    ensures Cards(personas[owner := card], account)
         == if owner.account == account then Cards(personas, account)[owner := card] else Cards(personas, account)
  {
  }

  lemma CardsRemoved(personas: map<Owner, Card>, owner: Owner, account: string)
    ensures Cards(personas - {owner}, account) == Cards(personas, account) - {owner}
  {
  }

  lemma AddPersonaSame(t1: Tables, t2: Tables, owner: Owner, card: Card, cap: int)
    requires SameSlice(t1, t2, owner.account)
    requires forall o :: o in t1.personas ==> t1.personas[o].personaId != card.personaId
    requires forall o :: o in t2.personas ==> t2.personas[o].personaId != card.personaId
    ensures var a1, a2 := AddPersona(t1, owner, card, cap), AddPersona(t2, owner, card, cap);
            SameSlice(a1.After(t1), a2.After(t2), owner.account) && a1.Reply() == a2.Reply()
  {
    SamePersonas(t1.personas, t2.personas, owner);
    CardsAdded(t1.personas, owner, card, owner.account);
    CardsAdded(t2.personas, owner, card, owner.account);
  }

  lemma UpdatePersonaSame(t1: Tables, t2: Tables, owner: Owner, text: CardText, now: Instant)
    requires SameSlice(t1, t2, owner.account)
    ensures var a1, a2 := UpdatePersona(t1, owner, text, now), UpdatePersona(t2, owner, text, now);
            SameSlice(a1.After(t1), a2.After(t2), owner.account) && a1.Reply() == a2.Reply()
  {
    SamePersonas(t1.personas, t2.personas, owner);
    if owner in t1.personas {
      var card := UpdatePersona(t1, owner, text, now).result.value;
      CardsAdded(t1.personas, owner, card, owner.account);
      CardsAdded(t2.personas, owner, card, owner.account);
    }
  }

  /** What is left of a slice when one persona is deleted. */
  function SliceLess<K, C>(slice: map<K, Seen<C>>, owner: Owner): map<K, Seen<C>> {
    map k | k in slice && slice[k].row.owner != owner :: slice[k]
  }

  lemma CascadeSlice<K(!new), C>(s: Shelf<K, C>, owner: Owner, account: string)
    requires DocidsApart(s)
    ensures Slice(Without(s, OwnedKeys(s.rows, owner)), account) == SliceLess(Slice(s, account), owner)
  {
    SliceWithout(s, OwnedKeys(s.rows, owner), account);
  }

  lemma DeletePersonaSlice(t: Tables, owner: Owner, account: string)
    requires TidyTables(t) && owner in t.personas
    ensures var t' := DeletePersona(t, owner).After(t);
            && Cards(t'.personas, account) == Cards(t.personas, account) - {owner}
            && Slice(t'.fields, account) == SliceLess(Slice(t.fields, account), owner)
            && Slice(t'.notes, account) == SliceLess(Slice(t.notes, account), owner)
  {
    CardsRemoved(t.personas, owner, account);
    CascadeSlice(t.fields, owner, account);
    CascadeSlice(t.notes, owner, account);
  }

  lemma DeletePersonaSame(t1: Tables, t2: Tables, owner: Owner)
    requires TidyTables(t1) && TidyTables(t2) && SameSlice(t1, t2, owner.account)
    ensures var a1, a2 := DeletePersona(t1, owner), DeletePersona(t2, owner);
            SameSlice(a1.After(t1), a2.After(t2), owner.account) && a1.Reply() == a2.Reply()
  {
    SamePersonas(t1.personas, t2.personas, owner);
    if owner in t1.personas {
      DeletePersonaSlice(t1, owner, owner.account);
      DeletePersonaSlice(t2, owner, owner.account);
    }
  }

  // ---- one operation --------------------------------------------------------------------------------

  /** A caller's operation tells the caller the same, and leaves the same slice, in any two states
      in which the caller's account looks the same, whatever else the two hold. */
  lemma OwnOperationIsTheSame(t1: Tables, t2: Tables, limits: Limits, c: Command, account: string)
    requires TidyTables(t1) && TidyTables(t2) && SameSlice(t1, t2, account)
    requires AccountOf(c) == Some(account) && MintsFresh(t1, c) && MintsFresh(t2, c)
    ensures SameSlice(Apply(t1, limits, c), Apply(t2, limits, c), account)
    ensures Tell(t1, limits, c) == Tell(t2, limits, c)
  {
    match c
    case SetFieldCmd(r, o) => SetFieldSame(t1, t2, limits, r, o);
    case ForgetFieldCmd(r, o) => ForgetFieldSame(t1, t2, limits, r, o);
    case WriteNoteCmd(r, o) => WriteNoteSame(t1, t2, limits, r, o);
    case ReviseNoteCmd(r, o) => ReviseNoteSame(t1, t2, limits, r, o);
    case ForgetNoteCmd(r, o) => ForgetNoteSame(t1, t2, limits, r, o);
    case AddPersonaCmd(owner, card, cap) => AddPersonaSame(t1, t2, owner, card, cap);
    case UpdatePersonaCmd(owner, text, now) => UpdatePersonaSame(t1, t2, owner, text, now);
    case DeletePersonaCmd(owner) => DeletePersonaSame(t1, t2, owner);
    case RecordCmd(_, _, _, _) =>
  }

  lemma ReplaceFieldElsewhere(t: Tables, limits: Limits, r: SetRequest, o: Outside, before: seq<LogOp>, account: string)
    requires TidyTables(t) && r.owner.account != account
    ensures var d := DestroyFields(t, {FieldKey(r.owner, r.write.key)});
            SameSlice(t, InsertField(d, limits, r, o, before).After(d), account)
  {
    var k := FieldKey(r.owner, r.write.key);
    DestroyFieldSlice(t, k, account);
    assert k !in Slice(t.fields, account);
    assert Slice(t.fields, account) - {k} == Slice(t.fields, account);
    InsertFieldSlice(DestroyFields(t, {k}), limits, r, o, before, account);
  }

  lemma SetFieldElsewhere(t: Tables, limits: Limits, r: SetRequest, o: Outside, account: string)
    requires TidyTables(t) && r.owner.account != account
    ensures SameSlice(t, SetField(t, limits, r, o).After(t), account)
  {
    var k := FieldKey(r.owner, r.write.key);
    if k !in t.fields.rows {
      InsertFieldSlice(t, limits, r, o, [], account);
    } else if t.fields.rows[k].PastDue(o.now) {
      ReplaceFieldElsewhere(t, limits, r, o, [Strike(Scopes(t.fields.rows, FieldNoun, {k}))], account);
    } else {
      ReviseFieldSlice(t, limits, r, o, account);
    }
  }

  lemma LessNothing<K, C>(slice: map<K, Seen<C>>, owner: Owner)
    requires forall k :: k in slice ==> slice[k].row.owner != owner
    ensures SliceLess(slice, owner) == slice
  {
  }

  lemma DeletePersonaElsewhere(t: Tables, owner: Owner, account: string)
    requires TidyTables(t) && owner.account != account
    ensures SameSlice(t, DeletePersona(t, owner).After(t), account)
  {
    if owner in t.personas {
      DeletePersonaSlice(t, owner, account);
      LessNothing(Slice(t.fields, account), owner);
      LessNothing(Slice(t.notes, account), owner);
    }
  }

  lemma NotesElsewhere(t: Tables, limits: Limits, c: Command, account: string)
    requires TidyTables(t) && (c.WriteNoteCmd? || c.ReviseNoteCmd? || c.ForgetNoteCmd?)
    requires AccountOf(c) != Some(account)
    ensures SameSlice(t, Apply(t, limits, c), account)
  {
    match c
    case WriteNoteCmd(r, o) => WriteNoteSlice(t, limits, r, o, account);
    case ReviseNoteCmd(r, o) =>
      if HasLiveNote(t, r.owner, r.noteId) { ReviseNoteSlice(t, limits, r, o, account); }
    case ForgetNoteCmd(r, o) =>
      if ForgetNote(t, limits, r, o).Committed? { ForgetNoteSlice(t, limits, r, o, account); }
  }

  /** And it leaves every other account's slice as it was. */
  lemma OtherSlicesAreUntouched(t: Tables, limits: Limits, c: Command, account: string)
    requires TidyTables(t) && AccountOf(c).Some? && AccountOf(c) != Some(account)
    ensures SameSlice(t, Apply(t, limits, c), account)
  {
    match c
    case SetFieldCmd(r, o) => SetFieldElsewhere(t, limits, r, o, account);
    case ForgetFieldCmd(r, o) =>
      if ForgetField(t, limits, r, o).Committed? { ForgetFieldSlice(t, limits, r, o, account); }
    case AddPersonaCmd(owner, card, _) => CardsAdded(t.personas, owner, card, account);
    case UpdatePersonaCmd(owner, text, now) =>
      if owner in t.personas {
        CardsAdded(t.personas, owner, UpdatePersona(t, owner, text, now).result.value, account);
      }
    case DeletePersonaCmd(owner) => DeletePersonaElsewhere(t, owner, account);
    case RecordCmd(_, _, _, _) =>
    case _ => NotesElsewhere(t, limits, c, account);
  }

  // ---- reading ----------------------------------------------------------------------------------------

  /** What an account can read is a matter of its slice alone: the rows any listing has to page
      through, and the rows any search matches. */
  lemma ReadsAreTheSame(u: Unicode, t1: Tables, t2: Tables, owner: Owner, ff: FieldStore.FieldConditions,
                        nf: NoteStore.NoteFilters, expression: string, profile: Option<string>)
    requires SameSlice(t1, t2, owner.account)
    ensures FieldStore.FieldPositions(t1.fields.rows, owner, ff) == FieldStore.FieldPositions(t2.fields.rows, owner, ff)
    ensures NoteStore.NotePositions(t1.notes.rows, owner, nf) == NoteStore.NotePositions(t2.notes.rows, owner, nf)
    ensures Hits(u, t1.fields, expression, owner.account, profile)
              == Hits(u, t2.fields, expression, owner.account, profile)
    ensures Hits(u, t1.notes, expression, owner.account, profile)
              == Hits(u, t2.notes, expression, owner.account, profile)
  {
    FieldPositionsBySlice(t1, t2, owner, ff);
    FieldPositionsBySlice(t2, t1, owner, ff);
    NotePositionsBySlice(t1, t2, owner, nf);
    NotePositionsBySlice(t2, t1, owner, nf);
    HitsBySlice(u, t1.fields, t2.fields, expression, owner.account, profile);
    HitsBySlice(u, t2.fields, t1.fields, expression, owner.account, profile);
    HitsBySlice(u, t1.notes, t2.notes, expression, owner.account, profile);
    HitsBySlice(u, t2.notes, t1.notes, expression, owner.account, profile);
  }

  lemma FieldPositionsBySlice(t1: Tables, t2: Tables, owner: Owner, ff: FieldStore.FieldConditions)
    requires SameSlice(t1, t2, owner.account)
    ensures FieldStore.FieldPositions(t1.fields.rows, owner, ff) <= FieldStore.FieldPositions(t2.fields.rows, owner, ff)
  {
    forall k | k in t1.fields.rows && FieldStore.Satisfies(t1.fields.rows[k], owner, ff)
      ensures k in t2.fields.rows && FieldStore.Satisfies(t2.fields.rows[k], owner, ff)
              && t1.fields.rows[k].updatedAt == t2.fields.rows[k].updatedAt
    {
      SameRow(t1.fields, t2.fields, owner.account, k);
      SatisfiesWithoutDocid(t1.fields.rows[k], t2.fields.rows[k], owner, ff);
    }
  }

  lemma SatisfiesWithoutDocid(row1: FieldRow, row2: FieldRow, owner: Owner, ff: FieldStore.FieldConditions)
    requires row1.(docid := 0) == row2.(docid := 0)
    ensures FieldStore.Satisfies(row1, owner, ff) <==> FieldStore.Satisfies(row2, owner, ff)
    ensures row1.updatedAt == row2.updatedAt
  {
  }

  lemma NotePositionsBySlice(t1: Tables, t2: Tables, owner: Owner, nf: NoteStore.NoteFilters)
    requires SameSlice(t1, t2, owner.account)
    ensures NoteStore.NotePositions(t1.notes.rows, owner, nf) <= NoteStore.NotePositions(t2.notes.rows, owner, nf)
  {
    forall k | k in t1.notes.rows && NoteStore.Satisfies(t1.notes.rows[k], owner, nf)
      ensures k in t2.notes.rows && NoteStore.Satisfies(t2.notes.rows[k], owner, nf)
              && t1.notes.rows[k].createdAt == t2.notes.rows[k].createdAt
    {
      SameRow(t1.notes, t2.notes, owner.account, k);
    }
  }

  lemma HitsBySlice<K(!new), C>(u: Unicode, s1: Shelf<K, C>, s2: Shelf<K, C>, expression: string, account: string,
                                profile: Option<string>)
    requires Slice(s1, account) == Slice(s2, account)
    ensures Hits(u, s1, expression, account, profile) <= Hits(u, s2, expression, account, profile)
  {
    forall k | k in Hits(u, s1, expression, account, profile) ensures k in Hits(u, s2, expression, account, profile) {
      SameRow(s1, s2, account, k);
      assert Slice(s1, account)[k] == Slice(s2, account)[k];
    }
  }

  // ---- whole runs -----------------------------------------------------------------------------------

  /** The commands of one account alone, in their order. */
  function Own(cs: seq<Command>, account: string): seq<Command> {
    if cs == [] then []
    else (if AccountOf(cs[0]) == Some(account) then [cs[0]] else []) + Own(cs[1..], account)
  }

  /** Everything the account is told over a run: the answers to its own calls, in their order. */
  function ToldOver(w: World, limits: Limits, cs: seq<Command>, account: string): seq<Told>
    decreases |cs|
  {
    if cs == [] then []
    else
      (if AccountOf(cs[0]) == Some(account) then [Tell(w.db, limits, cs[0])] else [])
      + ToldOver(Next(w, limits, cs[0]), limits, cs[1..], account)
  }

  /** A run in which nobody sweeps and every id minted is new where it is minted. */
  predicate FreshRun(w: World, limits: Limits, cs: seq<Command>)
    decreases |cs|
  {
    cs == [] || (AccountOf(cs[0]).Some? && MintsFresh(w.db, cs[0]) && FreshRun(Next(w, limits, cs[0]), limits, cs[1..]))
  }

  predicate HasNothing(t: Tables, account: string) {
    Cards(t.personas, account) == map[] && Slice(t.fields, account) == map[] && Slice(t.notes, account) == map[]
  }

  /** Nothing in the store belongs to anybody else. */
  ghost predicate OnlyOf(t: Tables, account: string) {
    forall other: string :: other != account ==> HasNothing(t, other)
  }

  lemma StartsEmpty(account: string)
    ensures OnlyOf(EMPTY, account)
  {
  }

  lemma OwnKeepsOnlyOf(t: Tables, limits: Limits, c: Command, account: string)
    requires TidyTables(t) && OnlyOf(t, account) && AccountOf(c) == Some(account)
    ensures OnlyOf(Apply(t, limits, c), account)
  {
    forall other: string | other != account ensures HasNothing(Apply(t, limits, c), other) {
      assert HasNothing(t, other);
      OtherSlicesAreUntouched(t, limits, c, other);
    }
  }

  lemma OnlyOwn(t: Tables, account: string)
    requires OnlyOf(t, account)
    ensures forall k :: k in t.fields.rows ==> t.fields.rows[k].owner.account == account
    ensures forall k :: k in t.notes.rows ==> t.notes.rows[k].owner.account == account
    ensures forall o :: o in t.personas ==> o.account == account
  {
    forall k | k in t.fields.rows ensures t.fields.rows[k].owner.account == account {
      var other := t.fields.rows[k].owner.account;
      assert k in Slice(t.fields, other);
      assert other != account ==> HasNothing(t, other);
    }
    forall k | k in t.notes.rows ensures t.notes.rows[k].owner.account == account {
      var other := t.notes.rows[k].owner.account;
      assert k in Slice(t.notes, other);
      assert other != account ==> HasNothing(t, other);
    }
    forall o | o in t.personas ensures o.account == account {
      assert o in Cards(t.personas, o.account);
      assert o.account != account ==> HasNothing(t, o.account);
    }
  }

  /** An id new among everybody's is new among one's own. */
  lemma FreshAlone(t1: Tables, t2: Tables, c: Command, account: string)
    requires SameSlice(t1, t2, account) && OnlyOf(t2, account) && MintsFresh(t1, c)
    ensures MintsFresh(t2, c)
  {
    OnlyOwn(t2, account);
    forall k | k in t2.fields.rows
      ensures k in t1.fields.rows && t1.fields.rows[k].content == t2.fields.rows[k].content
    {
      SameRow(t1.fields, t2.fields, account, k);
    }
    forall k | k in t2.notes.rows ensures k in t1.notes.rows {
      SameRow(t1.notes, t2.notes, account, k);
    }
    forall o | o in t2.personas ensures o in t1.personas && t1.personas[o] == t2.personas[o] {
      SamePersonas(t1.personas, t2.personas, o);
    }
  }

  lemma GoodIsTidy(u: Unicode, w: World, limits: Limits)
    requires Good(u, w, limits)
    ensures TidyTables(w.db)
  {
  }

  lemma PossibleAnywhere(u: Unicode, t1: Tables, t2: Tables, c: Command)
    requires Possible(u, t1, c) && AccountOf(c).Some?
    ensures Possible(u, t2, c)
  {
  }

  /** One step of the two runs side by side. */
  lemma SideBySide(u: Unicode, w1: World, w2: World, limits: Limits, c: Command, account: string)
    requires Good(u, w1, limits) && Good(u, w2, limits) && SameSlice(w1.db, w2.db, account) && OnlyOf(w2.db, account)
    requires Possible(u, w1.db, c) && AccountOf(c).Some? && MintsFresh(w1.db, c)
    ensures AccountOf(c) != Some(account) ==> SameSlice(Next(w1, limits, c).db, w2.db, account)
    ensures AccountOf(c) == Some(account) ==>
              && SameSlice(Next(w1, limits, c).db, Next(w2, limits, c).db, account)
              && OnlyOf(Next(w2, limits, c).db, account) && Possible(u, w2.db, c)
              && Tell(w1.db, limits, c) == Tell(w2.db, limits, c)
  {
    GoodIsTidy(u, w1, limits);
    GoodIsTidy(u, w2, limits);
    if AccountOf(c) == Some(account) {
      FreshAlone(w1.db, w2.db, c, account);
      OwnOperationIsTheSame(w1.db, w2.db, limits, c, account);
      OwnKeepsOnlyOf(w2.db, limits, c, account);
      PossibleAnywhere(u, w1.db, w2.db, c);
    } else {
      OtherSlicesAreUntouched(w1.db, limits, c, account);
    }
  }

  /** Over any run without sweeps an account is told exactly what it would be told had only that
      account ever called, and is left with the same slice: nothing the other accounts did has left
      a trace in either. */
  lemma {:induction false} OthersLeaveNoTrace(u: Unicode, w1: World, w2: World, limits: Limits, cs: seq<Command>,
                                              account: string)
    requires Good(u, w1, limits) && Good(u, w2, limits) && SameSlice(w1.db, w2.db, account) && OnlyOf(w2.db, account)
    requires PossibleRun(u, w1, limits, cs) && FreshRun(w1, limits, cs)
    ensures SameSlice(Run(w1, limits, cs).db, Run(w2, limits, Own(cs, account)).db, account)
    ensures ToldOver(w1, limits, cs, account) == ToldOver(w2, limits, Own(cs, account), account)
    decreases |cs|
  {
    if cs != [] {
      var c := cs[0];
      SideBySide(u, w1, w2, limits, c, account);
      GoodKept(u, w1, limits, c);
      if AccountOf(c) == Some(account) {
        GoodKept(u, w2, limits, c);
        OthersLeaveNoTrace(u, Next(w1, limits, c), Next(w2, limits, c), limits, cs[1..], account);
        OwnFirst(w2, limits, c, Own(cs[1..], account), account);
      } else {
        OthersLeaveNoTrace(u, Next(w1, limits, c), w2, limits, cs[1..], account);
        assert Own(cs, account) == Own(cs[1..], account);
      }
    }
  }

  lemma OwnFirst(w: World, limits: Limits, c: Command, rest: seq<Command>, account: string)
    requires AccountOf(c) == Some(account)
    ensures Run(w, limits, [c] + rest) == Run(Next(w, limits, c), limits, rest)
    ensures ToldOver(w, limits, [c] + rest, account)
         == [Tell(w.db, limits, c)] + ToldOver(Next(w, limits, c), limits, rest, account)
  {
    assert ([c] + rest)[0] == c && ([c] + rest)[1..] == rest;
  }

  /** From the empty store on, in particular. */
  lemma OnlyOwnCallsMatter(u: Unicode, limits: Limits, cs: seq<Command>, account: string)
    requires PossibleRun(u, INITIAL, limits, cs) && FreshRun(INITIAL, limits, cs)
    ensures SameSlice(Run(INITIAL, limits, cs).db, Run(INITIAL, limits, Own(cs, account)).db, account)
    ensures ToldOver(INITIAL, limits, cs, account) == ToldOver(INITIAL, limits, Own(cs, account), account)
  {
    StartIsGood(u, limits);
    StartsEmpty(account);
    OthersLeaveNoTrace(u, INITIAL, INITIAL, limits, cs, account);
  }
}
