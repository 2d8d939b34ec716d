/** What becomes of a forgotten row over a run: the term written on it when it was forgotten is
    kept, whatever anybody chooses later. */
module Erasing {
  import opened Wrappers
  import opened Text
  import opened Tables
  import opened Erasure
  import opened Storage
  import opened Transactions
  import opened Books
  import opened Machine
  import opened Reachable

  // ---- fields -------------------------------------------------------------------------------

  predicate SetsKey(c: Command, k: FieldKey) {
    c.SetFieldCmd? && FieldKey(c.set_.owner, c.set_.write.key) == k
  }

  predicate SweepsField(c: Command, k: FieldKey) {
    c.PurgeFieldsCmd? && k in c.fields
  }

  predicate DeletesPersona(c: Command, owner: Owner) {
    c == DeletePersonaCmd(owner)
  }

  /** The key was set again inside its term, or had none: the same row is live again. */
  ghost predicate Revived(before: FieldRow, t': Tables, k: FieldKey) {
    && k in t'.fields.rows && t'.fields.rows[k].Live() && t'.fields.rows[k].docid == before.docid
    && t'.fields.rows[k].revision == before.revision + 1 && t'.fields.rows[k].createdAt == before.createdAt
    && t'.fields.rows[k].purgeAfter == None
  }

  /** The key was set again after its term: the old row is gone and this is another one. */
  ghost predicate Replaced(t: Tables, t': Tables, k: FieldKey, now: Instant) {
    && k in t'.fields.rows && t'.fields.rows[k].Live() && t'.fields.rows[k].docid == t.fields.next + 1
    && t'.fields.rows[k].revision == 1 && t'.fields.rows[k].createdAt == now
    && t'.fields.rows[k].purgeAfter == None
  }

  /** One transaction either leaves a forgotten field exactly as it is, or revives it because its
      key was set inside the term, or destroys it because its term had ended. */
  lemma ForgottenFieldStep(u: Unicode, t: Tables, limits: Limits, c: Command, k: FieldKey)
    requires Named(t) && Possible(u, t, c)
    requires k in t.fields.rows && !t.fields.rows[k].Live() && !DeletesPersona(c, k.owner)
    ensures var row := t.fields.rows[k];
            var t' := Apply(t, limits, c);
            || (k in t'.fields.rows && t'.fields.rows[k] == row)
            || (SetsKey(c, k) && !row.PastDue(c.outside.now) && Revived(row, t', k))
            || (SetsKey(c, k) && row.PastDue(c.outside.now) && Replaced(t, t', k, c.outside.now))
            || (SweepsField(c, k) && row.PastDue(c.now) && k !in t'.fields.rows)
  {
    match c
    case SetFieldCmd(r, o) =>
      if FieldKey(r.owner, r.write.key) == k {
        SetOnForgotten(t, limits, r, o);
      } else {
        SetFieldOnlyTouches(t, limits, r, o);
      }
    case ForgetFieldCmd(r, o) => ForgetFieldOnlyTouches(t, limits, r, o);
    case PurgeFieldsCmd(now, _, ks) => assert ks <= DueKeys(t.fields.rows, now);
    case _ =>
  }

  lemma SetOnForgotten(t: Tables, limits: Limits, r: SetRequest, o: Outside)
    requires FieldKey(r.owner, r.write.key) in t.fields.rows && !t.fields.rows[FieldKey(r.owner, r.write.key)].Live()
    ensures var k := FieldKey(r.owner, r.write.key);
            var row := t.fields.rows[k];
            var t' := SetField(t, limits, r, o).After(t);
            || (k in t'.fields.rows && t'.fields.rows[k] == row)
            || (!row.PastDue(o.now) && Revived(row, t', k))
            || (row.PastDue(o.now) && Replaced(t, t', k, o.now))
  {
  }

  /** Whether a command can be what ends a forgotten field's wait. */
  predicate EndsFieldWait(c: Command, k: FieldKey, row: FieldRow) {
    SetsKey(c, k) || (SweepsField(c, k) && row.PastDue(c.now))
  }

  predicate HoldsField(t: Tables, k: FieldKey, row: FieldRow) {
    k in t.fields.rows && t.fields.rows[k] == row
  }

  /** Over any run that does not delete the persona, a forgotten field stays exactly as it was
      forgotten, term and all, until its key is set again or a sweep finds its term ended;
      without a term no sweep ever does. */
  lemma {:induction false} ForgottenFieldWaits(u: Unicode, w: World, limits: Limits, cs: seq<Command>, k: FieldKey)
    requires Named(w.db) && PossibleRun(u, w, limits, cs)
    requires k in w.db.fields.rows && !w.db.fields.rows[k].Live()
    requires forall i :: 0 <= i < |cs| ==> !DeletesPersona(cs[i], k.owner)
    ensures var row := w.db.fields.rows[k];
            HoldsField(Run(w, limits, cs).db, k, row)
            || exists i ::
                 0 <= i < |cs| && HoldsField(Run(w, limits, cs[..i]).db, k, row) && EndsFieldWait(cs[i], k, row)
    decreases |cs|
  {
    if cs != [] {
      var row := w.db.fields.rows[k];
      var w' := Next(w, limits, cs[0]);
      ForgottenFieldStep(u, w.db, limits, cs[0], k);
      NamesKept(u, w.db, limits, cs[0]);
      assert cs[..0] == [];
      assert !DeletesPersona(cs[0], k.owner);
      if HoldsField(w'.db, k, row) {
        ForgottenFieldWaits(u, w', limits, cs[1..], k);
        if !HoldsField(Run(w, limits, cs).db, k, row) {
          var i :| 0 <= i < |cs[1..]| && HoldsField(Run(w', limits, cs[1..][..i]).db, k, row)
            && EndsFieldWait(cs[1..][i], k, row);
          FirstThenRest(w, limits, cs, i);
          assert cs[1..][i] == cs[i + 1];
        }
      } else {
        assert HoldsField(Run(w, limits, cs[..0]).db, k, row) && EndsFieldWait(cs[0], k, row);
      }
    }
  }

  lemma FirstThenRest(w: World, limits: Limits, cs: seq<Command>, i: nat)
    requires i < |cs|
    ensures Run(w, limits, cs[..i + 1]) == Run(Next(w, limits, cs[0]), limits, cs[1..][..i])
  {
    assert cs[..i + 1][0] == cs[0] && cs[..i + 1][1..] == cs[1..][..i];
  }

  /** So a field that is gone was swept after its own instant, unless somebody set its key. */
  lemma NeverDestroyedEarly(u: Unicode, w: World, limits: Limits, cs: seq<Command>, k: FieldKey)
    requires Named(w.db) && PossibleRun(u, w, limits, cs)
    requires k in w.db.fields.rows && !w.db.fields.rows[k].Live()
    requires forall i :: 0 <= i < |cs| ==> !DeletesPersona(cs[i], k.owner) && !SetsKey(cs[i], k)
    requires k !in Run(w, limits, cs).db.fields.rows
    ensures w.db.fields.rows[k].purgeAfter.Some?
    ensures exists i :: 0 <= i < |cs| && SweepsField(cs[i], k) && w.db.fields.rows[k].purgeAfter.value <= cs[i].now
  {
    ForgottenFieldWaits(u, w, limits, cs, k);
    var row := w.db.fields.rows[k];
    var i :| 0 <= i < |cs| && HoldsField(Run(w, limits, cs[..i]).db, k, row) && EndsFieldWait(cs[i], k, row);
    assert SweepsField(cs[i], k);
  }

  // ---- notes --------------------------------------------------------------------------------

  predicate SweepsNote(c: Command, k: string) {
    c.PurgeNotesCmd? && k in c.notes
  }

  predicate HoldsNote(t: Tables, k: string, row: NoteRow) {
    k in t.notes.rows && t.notes.rows[k] == row
  }

  /** A forgotten note cannot be brought back: one transaction leaves it as it is or sweeps it
      because its term had ended. */
  lemma ForgottenNoteStep(u: Unicode, t: Tables, limits: Limits, c: Command, k: string)
    requires Named(t) && Possible(u, t, c)
    requires k in t.notes.rows && !t.notes.rows[k].Live() && !DeletesPersona(c, t.notes.rows[k].owner)
    ensures var row := t.notes.rows[k];
            HoldsNote(Apply(t, limits, c), k, row)
            || (SweepsNote(c, k) && row.PastDue(c.now) && k !in Apply(t, limits, c).notes.rows)
  {
    match c
    case SetFieldCmd(r, o) => SetFieldOnlyTouches(t, limits, r, o);
    case ForgetFieldCmd(r, o) => ForgetFieldOnlyTouches(t, limits, r, o);
    case PurgeNotesCmd(now, _, ks) => assert ks <= DueKeys(t.notes.rows, now);
    case _ =>
  }

  /** Over any run that does not delete the persona, a forgotten note stays exactly as it was
      forgotten until a sweep finds its term ended; without a term it stays for good. */
  lemma {:induction false} ForgottenNoteWaits(u: Unicode, w: World, limits: Limits, cs: seq<Command>, k: string)
    requires Named(w.db) && PossibleRun(u, w, limits, cs)
    requires k in w.db.notes.rows && !w.db.notes.rows[k].Live()
    requires forall i :: 0 <= i < |cs| ==> !DeletesPersona(cs[i], w.db.notes.rows[k].owner)
    ensures var row := w.db.notes.rows[k];
            HoldsNote(Run(w, limits, cs).db, k, row)
            || (row.purgeAfter.Some?
                && exists i :: 0 <= i < |cs| && SweepsNote(cs[i], k) && row.purgeAfter.value <= cs[i].now)
    decreases |cs|
  {
    if cs != [] {
      var row := w.db.notes.rows[k];
      var w' := Next(w, limits, cs[0]);
      assert !DeletesPersona(cs[0], row.owner);
      ForgottenNoteStep(u, w.db, limits, cs[0], k);
      NamesKept(u, w.db, limits, cs[0]);
      if HoldsNote(w'.db, k, row) {
        ForgottenNoteWaits(u, w', limits, cs[1..], k);
        if !HoldsNote(Run(w, limits, cs).db, k, row) {
          var i :| 0 <= i < |cs[1..]| && SweepsNote(cs[1..][i], k) && row.purgeAfter.value <= cs[1..][i].now;
          assert cs[1..][i] == cs[i + 1];
        }
      } else {
        assert SweepsNote(cs[0], k);
      }
    }
  }

  // ---- the term itself ------------------------------------------------------------------------

  /** A live row never has a term. */
  lemma LiveRowsNeverDue(u: Unicode, w: World, limits: Limits)
    requires IsReachable(u, w, limits)
    ensures forall k :: k in w.db.fields.rows && w.db.fields.rows[k].Live() ==> w.db.fields.rows[k].purgeAfter == None
    ensures forall k :: k in w.db.notes.rows && w.db.notes.rows[k].Live() ==> w.db.notes.rows[k].purgeAfter == None
  {
    ReachableIsGood(u, w, limits);
  }
}
