/** The caps, over every run: which always hold, and exactly when the one on pinned fields
    does not. */
module Caps {
  import opened Text
  import opened Sets
  import opened Tables
  import opened Storage
  import opened Transactions
  import opened Books
  import opened Machine
  import opened Reachable

  /** Nobody's own ceiling is above the deployment's, which narrowing sees to. */
  predicate WithinCeilings(limits: Limits, c: Command) {
    match c
    case SetFieldCmd(r, _) => Ceiling(r.ceiling, limits.maxPinnedFields) <= limits.maxPinnedFields
    case WriteNoteCmd(r, _) => Ceiling(r.ceiling, limits.maxPinnedNotes) <= limits.maxPinnedNotes
    case ReviseNoteCmd(r, _) => Ceiling(r.ceiling, limits.maxPinnedNotes) <= limits.maxPinnedNotes
    case AddPersonaCmd(_, _, cap) => cap <= limits.maxPersonas
    case _ => true
  }

  predicate Positive(limits: Limits) {
    limits.maxPersonas >= 0 && limits.maxFields >= 0 && limits.maxNotes >= 0
    && limits.maxPinnedFields >= 0 && limits.maxPinnedNotes >= 0
  }

  ghost predicate RowCapsHold(t: Tables, limits: Limits) {
    && (forall o :: |LiveKeys(t.fields.rows, o)| <= limits.maxFields)
    && (forall o :: |LiveKeys(t.notes.rows, o)| <= limits.maxNotes)
    && (forall o :: |PinnedKeys(t.notes.rows, o)| <= limits.maxPinnedNotes)
    && (forall a :: |PersonasOf(t.personas, a)| <= limits.maxPersonas)
  }

  ghost predicate PinnedFieldsCapHolds(t: Tables, limits: Limits) {
    forall o :: |PinnedKeys(t.fields.rows, o)| <= limits.maxPinnedFields
  }

  // ---- counting ---------------------------------------------------------------------------

  /** A set that gains at most one element, and only below the cap, stays within it. */
  lemma WithinCap<T>(before: set<T>, after: set<T>, x: T, cap: int)
    requires |before| <= cap && after <= before + {x} && (x in after - before ==> |before| < cap)
    ensures |after| <= cap
  {
    if x in after - before {
      SubsetIsNoLarger(after, before + {x});
    } else {
      SubsetIsNoLarger(after, before);
    }
  }

  // ---- one transaction ----------------------------------------------------------------------

  /** Setting a field makes at most its own key live, and only when there was room. */
  lemma SetFieldWithinCap(t: Tables, limits: Limits, r: SetRequest, o: Outside, owner: Owner)
    requires Named(t) && LiveRowsHaveNoTerm(t.fields) && |LiveKeys(t.fields.rows, owner)| <= limits.maxFields
    ensures |LiveKeys(SetField(t, limits, r, o).After(t).fields.rows, owner)| <= limits.maxFields
  {
    var k := FieldKey(r.owner, r.write.key);
    var before := LiveKeys(t.fields.rows, owner);
    var after := LiveKeys(SetField(t, limits, r, o).After(t).fields.rows, owner);
    SetFieldOnlyTouches(t, limits, r, o);
    assert after <= before + {k};
    if k in after - before {
      assert owner == r.owner;
      if k in t.fields.rows && t.fields.rows[k].PastDue(o.now) {
        assert LiveKeys(DestroyFields(t, {k}).fields.rows, owner) == before;
      }
    }
    WithinCap(before, after, k, limits.maxFields);
  }

  lemma ForgetFieldWithinCap(t: Tables, limits: Limits, r: ForgetRequest, o: Outside, owner: Owner)
    requires Named(t)
    ensures LiveKeys(ForgetField(t, limits, r, o).After(t).fields.rows, owner) <= LiveKeys(t.fields.rows, owner)
    ensures PinnedKeys(ForgetField(t, limits, r, o).After(t).fields.rows, owner) <= PinnedKeys(t.fields.rows, owner)
  {
  }

  lemma WriteNoteWithinCaps(t: Tables, limits: Limits, r: WriteRequest, o: Outside, owner: Owner)
    requires Ceiling(r.ceiling, limits.maxPinnedNotes) <= limits.maxPinnedNotes
    requires |LiveKeys(t.notes.rows, owner)| <= limits.maxNotes
             && |PinnedKeys(t.notes.rows, owner)| <= limits.maxPinnedNotes
    ensures var rows := WriteNote(t, limits, r, o).After(t).notes.rows;
            |LiveKeys(rows, owner)| <= limits.maxNotes && |PinnedKeys(rows, owner)| <= limits.maxPinnedNotes
  {
    var rows := WriteNote(t, limits, r, o).After(t).notes.rows;
    WithinCap(LiveKeys(t.notes.rows, owner), LiveKeys(rows, owner), o.freshId, limits.maxNotes);
    WithinCap(PinnedKeys(t.notes.rows, owner), PinnedKeys(rows, owner), o.freshId, limits.maxPinnedNotes);
  }

  lemma ReviseNoteWithinCaps(t: Tables, limits: Limits, r: ReviseRequest, o: Outside, owner: Owner)
    requires Ceiling(r.ceiling, limits.maxPinnedNotes) <= limits.maxPinnedNotes
    requires |PinnedKeys(t.notes.rows, owner)| <= limits.maxPinnedNotes
    ensures var rows := ReviseNote(t, limits, r, o).After(t).notes.rows;
            LiveKeys(rows, owner) == LiveKeys(t.notes.rows, owner) && |PinnedKeys(rows, owner)| <= limits.maxPinnedNotes
  {
    var rows := ReviseNote(t, limits, r, o).After(t).notes.rows;
    RevisedNoteKeys(t, limits, r, o, owner);
    WithinCap(PinnedKeys(t.notes.rows, owner), PinnedKeys(rows, owner), r.noteId, limits.maxPinnedNotes);
  }

  lemma RevisedNoteKeys(t: Tables, limits: Limits, r: ReviseRequest, o: Outside, owner: Owner)
    ensures var rows := ReviseNote(t, limits, r, o).After(t).notes.rows;
            && LiveKeys(rows, owner) == LiveKeys(t.notes.rows, owner)
            && PinnedKeys(rows, owner) <= PinnedKeys(t.notes.rows, owner) + {r.noteId}
            && (r.noteId in PinnedKeys(rows, owner) - PinnedKeys(t.notes.rows, owner) ==>
                  |PinnedKeys(t.notes.rows, owner)| < Ceiling(r.ceiling, limits.maxPinnedNotes))
  {
  }

  lemma AddPersonaWithinCap(t: Tables, owner: Owner, card: Card, cap: int, account: string, max: int)
    requires cap <= max && |PersonasOf(t.personas, account)| <= max
    ensures |PersonasOf(AddPersona(t, owner, card, cap).After(t).personas, account)| <= max
  {
    var personas := AddPersona(t, owner, card, cap).After(t).personas;
    WithinCap(PersonasOf(t.personas, account), PersonasOf(personas, account), owner, max);
  }

  lemma FieldsCapKept(t: Tables, limits: Limits, c: Command, owner: Owner)
    requires Named(t) && LiveRowsHaveNoTerm(t.fields) && |LiveKeys(t.fields.rows, owner)| <= limits.maxFields
    ensures |LiveKeys(Apply(t, limits, c).fields.rows, owner)| <= limits.maxFields
  {
    match c
    case SetFieldCmd(r, o) => SetFieldWithinCap(t, limits, r, o, owner);
    case ForgetFieldCmd(r, o) =>
      ForgetFieldWithinCap(t, limits, r, o, owner);
      SubsetIsNoLarger(LiveKeys(ForgetField(t, limits, r, o).After(t).fields.rows, owner),
                       LiveKeys(t.fields.rows, owner));
    case _ => FieldsOnlyLeave(t, limits, c, owner);
  }

  lemma FieldsOnlyLeave(t: Tables, limits: Limits, c: Command, owner: Owner)
    requires !c.SetFieldCmd? && !c.ForgetFieldCmd?
    ensures |LiveKeys(Apply(t, limits, c).fields.rows, owner)| <= |LiveKeys(t.fields.rows, owner)|
  {
    var rows, rows' := t.fields.rows, Apply(t, limits, c).fields.rows;
    assert LiveKeys(rows', owner) <= LiveKeys(rows, owner);
    SubsetIsNoLarger(LiveKeys(rows', owner), LiveKeys(rows, owner));
  }

  lemma NotesCapsKept(t: Tables, limits: Limits, c: Command, owner: Owner)
    requires Named(t) && WithinCeilings(limits, c)
    requires |LiveKeys(t.notes.rows, owner)| <= limits.maxNotes
             && |PinnedKeys(t.notes.rows, owner)| <= limits.maxPinnedNotes
    ensures |LiveKeys(Apply(t, limits, c).notes.rows, owner)| <= limits.maxNotes
    ensures |PinnedKeys(Apply(t, limits, c).notes.rows, owner)| <= limits.maxPinnedNotes
  {
    match c
    case WriteNoteCmd(r, o) => WriteNoteWithinCaps(t, limits, r, o, owner);
    case ReviseNoteCmd(r, o) => ReviseNoteWithinCaps(t, limits, r, o, owner);
    case SetFieldCmd(r, o) => SetFieldOnlyTouches(t, limits, r, o);
    case ForgetFieldCmd(r, o) => ForgetFieldOnlyTouches(t, limits, r, o);
    case _ => NotesOnlyLeave(t, limits, c, owner);
  }

  lemma NotesOnlyLeave(t: Tables, limits: Limits, c: Command, owner: Owner)
    requires !c.WriteNoteCmd? && !c.ReviseNoteCmd? && !c.SetFieldCmd? && !c.ForgetFieldCmd?
    ensures |LiveKeys(Apply(t, limits, c).notes.rows, owner)| <= |LiveKeys(t.notes.rows, owner)|
    ensures |PinnedKeys(Apply(t, limits, c).notes.rows, owner)| <= |PinnedKeys(t.notes.rows, owner)|
  {
    var rows, rows' := t.notes.rows, Apply(t, limits, c).notes.rows;
    assert LiveKeys(rows', owner) <= LiveKeys(rows, owner);
    assert PinnedKeys(rows', owner) <= PinnedKeys(rows, owner);
    SubsetIsNoLarger(LiveKeys(rows', owner), LiveKeys(rows, owner));
    SubsetIsNoLarger(PinnedKeys(rows', owner), PinnedKeys(rows, owner));
  }

  lemma PersonasCapKept(t: Tables, limits: Limits, c: Command, account: string)
    requires WithinCeilings(limits, c) && Named(t) && |PersonasOf(t.personas, account)| <= limits.maxPersonas
    ensures |PersonasOf(Apply(t, limits, c).personas, account)| <= limits.maxPersonas
  {
    match c
    case AddPersonaCmd(owner, card, cap) => AddPersonaWithinCap(t, owner, card, cap, account, limits.maxPersonas);
    case SetFieldCmd(r, o) => SetFieldOnlyTouches(t, limits, r, o);
    case ForgetFieldCmd(r, o) => ForgetFieldOnlyTouches(t, limits, r, o);
    case UpdatePersonaCmd(_, _, _) =>
        assert PersonasOf(Apply(t, limits, c).personas, account) == PersonasOf(t.personas, account);
    case DeletePersonaCmd(_) =>
      assert PersonasOf(Apply(t, limits, c).personas, account) <= PersonasOf(t.personas, account);
      SubsetIsNoLarger(PersonasOf(Apply(t, limits, c).personas, account), PersonasOf(t.personas, account));
    case _ =>
  }

  lemma RowCapsKept(u: Unicode, w: World, limits: Limits, c: Command)
    requires Good(u, w, limits) && RowCapsHold(w.db, limits) && WithinCeilings(limits, c)
    ensures RowCapsHold(Next(w, limits, c).db, limits)
  {
    forall o ensures |LiveKeys(Next(w, limits, c).db.fields.rows, o)| <= limits.maxFields {
      FieldsCapKept(w.db, limits, c, o);
    }
    forall o
      ensures |LiveKeys(Next(w, limits, c).db.notes.rows, o)| <= limits.maxNotes
      ensures |PinnedKeys(Next(w, limits, c).db.notes.rows, o)| <= limits.maxPinnedNotes
    {
      NotesCapsKept(w.db, limits, c, o);
    }
    forall a ensures |PersonasOf(Next(w, limits, c).db.personas, a)| <= limits.maxPersonas {
      PersonasCapKept(w.db, limits, c, a);
    }
  }

  /** In every state of every run: live fields and live notes per persona, personas per account,
      and pinned live notes per persona are within their caps. */
  lemma {:induction false} CapsHoldOverRuns(u: Unicode, w: World, limits: Limits, cs: seq<Command>)
    requires Good(u, w, limits) && RowCapsHold(w.db, limits) && PossibleRun(u, w, limits, cs)
    requires forall i :: 0 <= i < |cs| ==> WithinCeilings(limits, cs[i])
    ensures RowCapsHold(Run(w, limits, cs).db, limits)
    decreases |cs|
  {
    if cs != [] {
      GoodKept(u, w, limits, cs[0]);
      RowCapsKept(u, w, limits, cs[0]);
      CapsHoldOverRuns(u, Next(w, limits, cs[0]), limits, cs[1..]);
    }
  }

  lemma CapsHoldAtStart(limits: Limits)
    requires Positive(limits)
    ensures RowCapsHold(INITIAL.db, limits) && PinnedFieldsCapHolds(INITIAL.db, limits)
  {
    var t := INITIAL.db;
    assert forall o :: LiveKeys(t.fields.rows, o) == {} && PinnedKeys(t.fields.rows, o) == {};
    assert forall o :: LiveKeys(t.notes.rows, o) == {} && PinnedKeys(t.notes.rows, o) == {};
    assert forall a :: PersonasOf(t.personas, a) == {};
  }

  // ---- pinned fields --------------------------------------------------------------------------

  /** A write that revives a tombstone which is still pinned and leaves it pinned.  The store
      asks for no room in the pin budget for it, because the row was pinned already. */
  predicate RevivesPinned(t: Tables, limits: Limits, r: SetRequest, o: Outside) {
    var k := FieldKey(r.owner, r.write.key);
    && k in t.fields.rows && !t.fields.rows[k].Live() && !t.fields.rows[k].PastDue(o.now)
    && t.fields.rows[k].pinned && WillBePinned(true, r.pinned)
    && |LiveKeys(t.fields.rows, r.owner)| < limits.maxFields
  }

  lemma PinnedAfterSet(t: Tables, limits: Limits, r: SetRequest, o: Outside, owner: Owner)
    requires Named(t) && LiveRowsHaveNoTerm(t.fields)
    ensures var k := FieldKey(r.owner, r.write.key);
            var before := PinnedKeys(t.fields.rows, owner);
            var after := PinnedKeys(SetField(t, limits, r, o).After(t).fields.rows, owner);
            && after <= before + {k}
            && (k in after - before ==> owner == r.owner)
            && (k in after - before && !RevivesPinned(t, limits, r, o) ==>
                  |before| < Ceiling(r.ceiling, limits.maxPinnedFields))
            && (RevivesPinned(t, limits, r, o) && owner == r.owner ==> k !in before && after == before + {k})
  {
    var k := FieldKey(r.owner, r.write.key);
    var before := PinnedKeys(t.fields.rows, owner);
    SetFieldOnlyTouches(t, limits, r, o);
    if k in t.fields.rows && t.fields.rows[k].PastDue(o.now) {
      assert PinnedKeys(DestroyFields(t, {k}).fields.rows, owner) == before;
    }
  }

  /** From a state within the pinned-fields cap, a write leaves it exceeded exactly when it
      revives a still-pinned tombstone while the budget is full. */
  lemma PinnedCapFailsExactlyOnRevive(t: Tables, limits: Limits, r: SetRequest, o: Outside)
    requires Named(t) && LiveRowsHaveNoTerm(t.fields) && PinnedFieldsCapHolds(t, limits)
    requires Ceiling(r.ceiling, limits.maxPinnedFields) <= limits.maxPinnedFields
    ensures PinnedFieldsCapHolds(SetField(t, limits, r, o).After(t), limits) <==>
            !(RevivesPinned(t, limits, r, o) && |PinnedKeys(t.fields.rows, r.owner)| == limits.maxPinnedFields)
  {
    var k := FieldKey(r.owner, r.write.key);
    var rows' := SetField(t, limits, r, o).After(t).fields.rows;
    forall owner | !(RevivesPinned(t, limits, r, o) && owner == r.owner)
      ensures |PinnedKeys(rows', owner)| <= limits.maxPinnedFields
    {
      PinnedAfterSet(t, limits, r, o, owner);
      WithinCap(PinnedKeys(t.fields.rows, owner), PinnedKeys(rows', owner), k, limits.maxPinnedFields);
    }
    if RevivesPinned(t, limits, r, o) {
      PinnedAfterSet(t, limits, r, o, r.owner);
      assert |PinnedKeys(rows', r.owner)| == |PinnedKeys(t.fields.rows, r.owner)| + 1;
    }
  }

  /** A command that revives a still-pinned tombstone while its owner's pinned budget is full. */
  predicate RevivesBeyondBudget(t: Tables, limits: Limits, c: Command) {
    && c.SetFieldCmd? && RevivesPinned(t, limits, c.set_, c.outside)
    && |PinnedKeys(t.fields.rows, c.set_.owner)| >= limits.maxPinnedFields
  }

  lemma PinnedCapKeptExactly(u: Unicode, w: World, limits: Limits, c: Command)
    requires Good(u, w, limits) && PinnedFieldsCapHolds(w.db, limits) && WithinCeilings(limits, c)
    ensures PinnedFieldsCapHolds(Next(w, limits, c).db, limits) <==> !RevivesBeyondBudget(w.db, limits, c)
  {
    var t, t' := w.db, Apply(w.db, limits, c);
    if c.SetFieldCmd? {
      PinnedCapFailsExactlyOnRevive(t, limits, c.set_, c.outside);
      assert |PinnedKeys(t.fields.rows, c.set_.owner)| <= limits.maxPinnedFields;
    } else {
      forall o ensures |PinnedKeys(t'.fields.rows, o)| <= limits.maxPinnedFields {
        PinnedFieldsOnlyLeave(t, limits, c, o);
      }
    }
  }

  lemma PinnedFieldsOnlyLeave(t: Tables, limits: Limits, c: Command, owner: Owner)
    requires Named(t) && !c.SetFieldCmd?
    ensures |PinnedKeys(Apply(t, limits, c).fields.rows, owner)| <= |PinnedKeys(t.fields.rows, owner)|
  {
    if c.ForgetFieldCmd? { ForgetFieldWithinCap(t, limits, c.forget, c.outside, owner); }
    assert PinnedKeys(Apply(t, limits, c).fields.rows, owner) <= PinnedKeys(t.fields.rows, owner);
    SubsetIsNoLarger(PinnedKeys(Apply(t, limits, c).fields.rows, owner), PinnedKeys(t.fields.rows, owner));
  }

  /** The cap holds in every state of the run, the first and the last among them. */
  ghost predicate CapHoldsThroughout(w: World, limits: Limits, cs: seq<Command>)
    decreases |cs|
  {
    && PinnedFieldsCapHolds(w.db, limits)
    && (cs == [] || CapHoldsThroughout(Next(w, limits, cs[0]), limits, cs[1..]))
  }

  /** No command of the run revives beyond the budget where it is submitted. */
  predicate NeverRevivesBeyondBudget(w: World, limits: Limits, cs: seq<Command>)
    decreases |cs|
  {
    cs == [] || (!RevivesBeyondBudget(w.db, limits, cs[0])
                 && NeverRevivesBeyondBudget(Next(w, limits, cs[0]), limits, cs[1..]))
  }

  /** A run keeps pinned live fields within their cap throughout if and only if it never revives a
      still-pinned tombstone while its owner's pinned budget is full. */
  lemma {:induction false} PinnedFieldsCapExactly(u: Unicode, w: World, limits: Limits, cs: seq<Command>)
    requires Good(u, w, limits) && PinnedFieldsCapHolds(w.db, limits) && PossibleRun(u, w, limits, cs)
    requires forall i :: 0 <= i < |cs| ==> WithinCeilings(limits, cs[i])
    ensures CapHoldsThroughout(w, limits, cs) <==> NeverRevivesBeyondBudget(w, limits, cs)
    decreases |cs|
  {
    if cs != [] {
      GoodKept(u, w, limits, cs[0]);
      PinnedCapKeptExactly(u, w, limits, cs[0]);
      if !RevivesBeyondBudget(w.db, limits, cs[0]) {
        PinnedFieldsCapExactly(u, Next(w, limits, cs[0]), limits, cs[1..]);
      }
    }
  }

  /** No command of the run revives a pinned tombstone at all, with room or without. */
  predicate NeverRevivesPinned(w: World, limits: Limits, cs: seq<Command>)
    decreases |cs|
  {
    cs == [] || (!(cs[0].SetFieldCmd? && RevivesPinned(w.db, limits, cs[0].set_, cs[0].outside))
                 && NeverRevivesPinned(Next(w, limits, cs[0]), limits, cs[1..]))
  }

  lemma {:induction false} NeverAtAllIsNeverBeyond(w: World, limits: Limits, cs: seq<Command>)
    requires NeverRevivesPinned(w, limits, cs)
    ensures NeverRevivesBeyondBudget(w, limits, cs)
    decreases |cs|
  {
    if cs != [] { NeverAtAllIsNeverBeyond(Next(w, limits, cs[0]), limits, cs[1..]); }
  }

  lemma {:induction false} CapHoldsAtTheEnd(w: World, limits: Limits, cs: seq<Command>)
    requires CapHoldsThroughout(w, limits, cs)
    ensures PinnedFieldsCapHolds(Run(w, limits, cs).db, limits)
    decreases |cs|
  {
    if cs != [] { CapHoldsAtTheEnd(Next(w, limits, cs[0]), limits, cs[1..]); }
  }

  /** So a run that never revives a pinned tombstone ends within the cap. */
  lemma PinnedFieldsCapOverRuns(u: Unicode, w: World, limits: Limits, cs: seq<Command>)
    requires Good(u, w, limits) && PinnedFieldsCapHolds(w.db, limits) && PossibleRun(u, w, limits, cs)
    requires forall i :: 0 <= i < |cs| ==> WithinCeilings(limits, cs[i])
    requires NeverRevivesPinned(w, limits, cs)
    ensures PinnedFieldsCapHolds(Run(w, limits, cs).db, limits)
  {
    PinnedFieldsCapExactly(u, w, limits, cs);
    NeverAtAllIsNeverBeyond(w, limits, cs);
    CapHoldsAtTheEnd(w, limits, cs);
  }
}
