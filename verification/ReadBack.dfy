/** What one write leaves to be read: the row, the rows beside it, and the event about it. */
module ReadBack {
  import opened Wrappers
  import opened Text
  import opened Json
  import opened Tables
  import opened Erasure
  import opened Storage
  import opened Transactions
  import opened FieldValues
  import opened Keys
  import opened Vetting
  import opened Shapes
  import opened Books
  import opened FieldStore
  import opened PersonaStore

  // ---- fields -----------------------------------------------------------------------------------

  /** Whether a write finds a row it goes on with; past its term a row is as good as gone. */
  predicate GoesOn(t: Tables, k: FieldKey, now: Instant) {
    k in t.fields.rows && !(t.fields.rows[k].purgeAfter.Some? && t.fields.rows[k].purgeAfter.value <= now)
  }

  /** A row that says what was asked for, and otherwise what it said before. */
  ghost predicate SaysField(t: Tables, k: FieldKey, row: FieldRow, r: SetRequest, o: Outside) {
    && row.Live() && row.purgeAfter == None && row.owner == r.owner && row.subject == r.write.key
    && row.content.description == r.write.description && row.content.valueJson == r.write.valueJson
    && (if GoesOn(t, k, o.now) then
          var was := t.fields.rows[k];
          && row.content.fieldId == was.content.fieldId && row.createdAt == was.createdAt && row.docid == was.docid
          && row.pinned == (if r.pinned.Some? then r.pinned.value else was.pinned)
          && (row == was || (row.revision == was.revision + 1 && row.updatedAt == o.now && row.author == r.author
                             && row.content.valueType == r.write.valueType))
        else
          && row.content.fieldId == o.freshId && row.createdAt == row.updatedAt == o.now
          && row.pinned == (r.pinned == Some(true)) && row.revision == 1 && row.author == r.author
          && row.content.valueType == r.write.valueType)
  }

  /** An accepted write stores what it says under its own key, keeps what belongs to the row
      and not to the write, and touches nothing else. */
  lemma SetStoresWhatItSays(t: Tables, limits: Limits, r: SetRequest, o: Outside)
    requires Named(t) && LiveRowsHaveNoTerm(t.fields) && SetField(t, limits, r, o).Committed?
    ensures var k := FieldKey(r.owner, r.write.key);
            var after := SetField(t, limits, r, o);
            && k in after.db.fields.rows && after.db.fields.rows[k] == after.result
            && SaysField(t, k, after.result, r, o)
            && after.db.fields.rows - {k} == t.fields.rows - {k}
            && after.db.notes == t.notes && after.db.personas == t.personas
  {
    var k := FieldKey(r.owner, r.write.key);
    var after := SetField(t, limits, r, o);
    assert after.db.fields.rows - {k} == t.fields.rows - {k};
  }

  /** Reading the stored text gives the caller's value back, up to the order of object keys. */
  lemma SetReadsBack(u: Unicode, valueLimits: ValueLimits, t: Tables, limits: Limits, raw: RawField, o: Outside)
    requires Named(t) && LiveRowsHaveNoTerm(t.fields) && Decoded(raw.value)
    requires SetRaw(u, valueLimits, t, limits, raw, o).Committed?
    ensures NormalizeKey(u, raw.key).Success?
    ensures var k := FieldKey(raw.owner, NormalizeKey(u, raw.key).value);
            var after := SetRaw(u, valueLimits, t, limits, raw, o);
            && k in after.db.fields.rows && after.db.fields.rows[k] == after.result
            && IsCore(raw.description, u.isSpace, after.result.content.description)
            && var stored := Loads(after.result.content.valueJson);
               stored.Some? && SameValue(stored.value, raw.value)
  {
    AcceptedParts(u, valueLimits, raw.key, raw.description, raw.value);
    TrimIsCore(raw.description, u.isSpace, Trim(raw.description, u.isSpace));
    StoredTextDecodes(raw.value, valueLimits);
    var w := VetField(u, valueLimits, raw.key, raw.description, raw.value).value;
    SetStoresWhatItSays(t, limits, SetRequest(raw.owner, w, raw.author, raw.pinned, raw.ceiling, raw.logValues), o);
  }

  /** The newest event of a log that keeps any. */
  ghost predicate Newest(log: Log, e: Event) {
    log.events != [] && log.events[|log.events| - 1] == e.(sequence := log.last)
  }

  lemma {:induction false} AboveKeepsLast(events: seq<Event>, bound: int)
    requires events != [] && events[|events| - 1].sequence > bound
    ensures Above(events, bound) != [] && Above(events, bound)[|Above(events, bound)| - 1] == events[|events| - 1]
  {
    if |events| > 1 {
      AboveKeepsLast(events[1..], bound);
    }
  }

  lemma AppendedIsNewest(log: Log, maxEntries: int, e: Event)
    requires maxEntries >= 1
    ensures Newest(Appended(log, maxEntries, e), e)
  {
    AboveKeepsLast(log.events + [e.(sequence := log.last + 1)], log.last + 1 - maxEntries);
  }

  /** The event about a write: set for a key that was not live, revised for one that was, with the
      old text exactly when it was replaced and keeping it was asked for. */
  lemma SetIsLogged(t: Tables, limits: Limits, r: SetRequest, o: Outside)
    requires limits.maxEntries >= 1 && LiveRowsHaveNoTerm(t.fields)
    requires SetField(t, limits, r, o).Committed? && SetField(t, limits, r, o).ops != []
    ensures var k := FieldKey(r.owner, r.write.key);
            var log := SetField(t, limits, r, o).db.log;
            exists e :: Newest(log, e) && e.at == o.at && e.owner == r.owner && e.subject == r.write.key
                && e.author == r.author
              && (e.action == if k in t.fields.rows && t.fields.rows[k].forgottenAt == None then FieldRevised
                              else FieldSet)
              && (e.detail == if GoesOn(t, k, o.now) then RevisionNumber(t.fields.rows[k].revision + 1)
                              else SetAs(r.write.valueType))
              && e.oldValue == if r.logValues && GoesOn(t, k, o.now)
                 && t.fields.rows[k].content.valueJson != r.write.valueJson
                               then Some(t.fields.rows[k].content.valueJson) else None
  {
    var k := FieldKey(r.owner, r.write.key);
    var after := SetField(t, limits, r, o);
    var e := after.ops[|after.ops| - 1].record.event;
    if k in t.fields.rows && t.fields.rows[k].PastDue(o.now) {
      AppendedIsNewest(DestroyFields(t, {k}).log, limits.maxEntries, e);
    } else {
      AppendedIsNewest(t.log, limits.maxEntries, e);
    }
    assert Newest(after.db.log, e);
  }

  // ---- notes --------------------------------------------------------------------------------------

  lemma WriteIsLogged(t: Tables, limits: Limits, r: WriteRequest, o: Outside)
    requires limits.maxEntries >= 1 && WriteNote(t, limits, r, o).Committed?
    ensures Newest(WriteNote(t, limits, r, o).db.log,
                   Event(0, o.at, r.owner, NoteWritten, o.freshId, OfKind(r.kind), r.author, None))
  {
    AppendedIsNewest(t.log, limits.maxEntries,
                     Event(0, o.at, r.owner, NoteWritten, o.freshId, OfKind(r.kind), r.author, None));
  }

  /** Revising changes the parts that are named, to what they are named, and no others. */
  lemma ReviseChangesWhatIsNamed(t: Tables, limits: Limits, r: ReviseRequest, o: Outside)
    requires ReviseNote(t, limits, r, o).Committed?
    ensures r.noteId in t.notes.rows
    ensures var was := t.notes.rows[r.noteId];
            var after := ReviseNote(t, limits, r, o);
            && r.noteId in after.db.notes.rows && after.db.notes.rows[r.noteId] == after.result
            && after.result.content.body == (if r.body.Some? then r.body.value else was.content.body)
            && after.result.content.kind == (if r.kind.Some? then r.kind.value else was.content.kind)
            && after.result.pinned == (if r.pinned.Some? then r.pinned.value else was.pinned)
            && after.result.createdAt == was.createdAt && after.result.docid == was.docid
               && after.result.owner == was.owner
            && (after.result == was || (after.result.revision == was.revision + 1 && after.result.author == r.author
                                        && after.result.updatedAt == o.now))
            && (after.db == t <==> after.result == was)
            && after.db.notes.rows - {r.noteId} == t.notes.rows - {r.noteId}
  {
    assert ReviseNote(t, limits, r, o).db.notes.rows - {r.noteId} == t.notes.rows - {r.noteId};
  }

  /** The body an event keeps is JSON for the body that was replaced. */
  lemma ReviseIsLogged(t: Tables, limits: Limits, r: ReviseRequest, o: Outside)
    requires limits.maxEntries >= 1 && ReviseNote(t, limits, r, o).Committed? && ReviseNote(t, limits, r, o).ops != []
    ensures r.noteId in t.notes.rows
    ensures exists e ::
              Newest(ReviseNote(t, limits, r, o).db.log, e) && e.at == o.at && e.action == NoteRevised
                && e.owner == r.owner
              && e.subject == r.noteId && e.author == r.author
              && e.detail == RevisionNumber(t.notes.rows[r.noteId].revision + 1)
              && (e.oldValue.Some? <==>
                  r.logValues && r.body.Some? && r.body.value != t.notes.rows[r.noteId].content.body)
              && (e.oldValue.Some? ==> Loads(e.oldValue.value) == Some(JString(t.notes.rows[r.noteId].content.body)))
  {
    var after := ReviseNote(t, limits, r, o);
    var e := after.ops[0].record.event;
    LoadsAsciiString(t.notes.rows[r.noteId].content.body);
    AppendedIsNewest(t.log, limits.maxEntries, e);
    assert Newest(after.db.log, e);
  }

  /** What forgetting leaves of a note: nothing if that was asked, or the note hidden, with its
      term. */
  lemma ForgettingANote(t: Tables, limits: Limits, r: ForgetRequest, o: Outside)
    requires ForgetNote(t, limits, r, o).Committed?
    ensures r.subject in t.notes.rows && t.notes.rows[r.subject].Live() && t.notes.rows[r.subject].owner == r.owner
    ensures var was := t.notes.rows[r.subject];
            var rows := ForgetNote(t, limits, r, o).db.notes.rows;
            && rows - {r.subject} == t.notes.rows - {r.subject}
            && (r.erasure.mode.Immediate? <==> r.subject !in rows)
            && (r.subject in rows ==>
                  rows[r.subject] == was.(
                    forgottenAt := Some(o.now), updatedAt := o.now,
                    purgeAfter := if r.erasure.mode.Grace? then Some(o.now + r.erasure.graceDays * 86_400_000_000)
                                  else None))
  {
    assert ForgetNote(t, limits, r, o).db.notes.rows - {r.subject} == t.notes.rows - {r.subject};
  }

  // ---- forgetting is logged ---------------------------------------------------------------------------

  lemma StruckKeepsNewest(log: Log, scopes: set<Scope>, e: Event)
    requires Newest(log, e) && e.oldValue == None
    ensures Newest(log.(events := Struck(log.events, scopes)), e)
  {
  }

  /** What the event says becomes of a forgotten row. */
  function Fate(p: ErasurePolicy, now: Instant): Detail {
    match p.mode
    case Immediate => Erased
    case Grace => ErasedAfter(now + p.graceDays * 86_400_000_000)
    case Tombstone => Blank
  }

  /** Forgetting writes an event that names what was forgotten and what becomes of it, never a
      value, and destroying the row at once does not take that event with it. */
  lemma ForgetFieldIsLogged(t: Tables, limits: Limits, r: ForgetRequest, o: Outside)
    requires limits.maxEntries >= 1 && ForgetField(t, limits, r, o).Committed?
    ensures Newest(ForgetField(t, limits, r, o).db.log,
                   Event(0, o.at, r.owner, FieldForgotten, r.subject,
                         Fate(r.erasure, o.now), r.author, None))
  {
    var e := Event(0, o.at, r.owner, FieldForgotten, r.subject, Fate(r.erasure, o.now), r.author, None);
    AppendedIsNewest(t.log, limits.maxEntries, e);
    if r.erasure.DestroysNow() {
      var after := ForgetField(t, limits, r, o);
      StruckKeepsNewest(Appended(t.log, limits.maxEntries, e), after.ops[1].scopes, e);
    }
  }

  lemma ForgetNoteIsLogged(t: Tables, limits: Limits, r: ForgetRequest, o: Outside)
    requires limits.maxEntries >= 1 && ForgetNote(t, limits, r, o).Committed?
    ensures Newest(ForgetNote(t, limits, r, o).db.log,
                   Event(0, o.at, r.owner, NoteForgotten, r.subject,
                         Fate(r.erasure, o.now), r.author, None))
  {
    var e := Event(0, o.at, r.owner, NoteForgotten, r.subject, Fate(r.erasure, o.now), r.author, None);
    AppendedIsNewest(t.log, limits.maxEntries, e);
    if r.erasure.DestroysNow() {
      var after := ForgetNote(t, limits, r, o);
      StruckKeepsNewest(Appended(t.log, limits.maxEntries, e), after.ops[1].scopes, e);
    }
  }

  // ---- cards --------------------------------------------------------------------------------------------

  /** A card text as it is kept: trimmed, absent if that leaves nothing, within its limit, and no
      credential. */
  ghost predicate KeptText(u: Unicode, raw: Option<string>, limit: int, kept: Option<string>) {
    && (kept.None? <==> raw.None? || IsCore(raw.value, u.isSpace, ""))
    && (kept.Some? ==>
          IsCore(raw.value, u.isSpace, kept.value) && |kept.value| <= limit && !CredentialShaped(u, kept.value))
  }

  ghost predicate SaysCard(u: Unicode, raw: CardText, card: Card) {
    && KeptText(u, raw.displayName, 120, card.displayName)
    && KeptText(u, raw.pronouns, 40, card.pronouns)
    && KeptText(u, raw.summary, 600, card.summary)
  }

  lemma VettedTextIsKept(u: Unicode, raw: Option<string>, limit: int, kept: Option<string>)
    requires NormalizeCardText(u, raw, limit) == Success(kept) && RefuseIfPresent(u, kept).Success?
    ensures KeptText(u, raw, limit, kept)
  {
    if raw.Some? {
      TrimIsCore(raw.value, u.isSpace, "");
      TrimIsCore(raw.value, u.isSpace, Trim(raw.value, u.isSpace));
    }
    if kept.Some? { RefusedExactly(u, kept.value); }
  }

  lemma VettedCardIsKept(u: Unicode, raw: CardText)
    requires VetCard(u, raw).Success?
    ensures var text := VetCard(u, raw).value;
            KeptText(u, raw.displayName, 120, text.displayName) && KeptText(u, raw.pronouns, 40, text.pronouns)
            && KeptText(u, raw.summary, 600, text.summary)
  {
    var text := VetCard(u, raw).value;
    VettedTextIsKept(u, raw.displayName, 120, text.displayName);
    VettedTextIsKept(u, raw.pronouns, 40, text.pronouns);
    VettedTextIsKept(u, raw.summary, 600, text.summary);
  }

  /** A created card says what was asked for, is there afterwards, and leaves the account within
      its cap; the newest event says that it was created. */
  lemma CreateReadsBack(u: Unicode, t: Tables, limits: Limits, owner: Owner, raw: CardText, id: string, author: Author,
                        now: Instant, at: Instant)
    requires limits.maxEntries >= 1 && Created(u, t, limits, owner, raw, id, author, now, at).1.Success?
    ensures var (t', made) := Created(u, t, limits, owner, raw, id, author, now, at);
            && owner !in t.personas && t'.personas == t.personas[owner := made.value]
            && SaysCard(u, raw, made.value) && made.value.personaId == id
               && made.value.createdAt == made.value.updatedAt == now
            && |set o | o in t.personas && o.account == owner.account| < limits.maxPersonas
            && t'.fields == t.fields && t'.notes == t.notes
            && Newest(t'.log, Event(0, at, owner, PersonaCreated, owner.profile, Blank, author, None))
  {
    VettedCardIsKept(u, raw);
    AppendedIsNewest(t.log, limits.maxEntries, Event(0, at, owner, PersonaCreated, owner.profile, Blank, author, None));
  }

  /** An updated card says what was asked for and is otherwise the card it was. */
  lemma UpdateReadsBack(u: Unicode, t: Tables, limits: Limits, owner: Owner, raw: CardText, author: Author,
                        now: Instant, at: Instant)
    requires limits.maxEntries >= 1 && Updated(u, t, limits, owner, raw, author, now, at).1.Success?
    ensures var (t', made) := Updated(u, t, limits, owner, raw, author, now, at);
            && owner in t.personas && t'.personas == t.personas[owner := made.value]
            && SaysCard(u, raw, made.value) && made.value.updatedAt == now
            && made.value.personaId == t.personas[owner].personaId
               && made.value.createdAt == t.personas[owner].createdAt
            && t'.fields == t.fields && t'.notes == t.notes
            && Newest(t'.log, Event(0, at, owner, PersonaUpdated, owner.profile, Blank, author, None))
  {
    VettedCardIsKept(u, raw);
    AppendedIsNewest(t.log, limits.maxEntries, Event(0, at, owner, PersonaUpdated, owner.profile, Blank, author, None));
  }

  /** A deleted persona leaves no card, row, index entry or logged value of its own, and everybody
      else's as they were; what the log says last is that it was deleted. */
  lemma DeleteLeavesNothing(t: Tables, limits: Limits, owner: Owner, author: Author, at: Instant)
    requires limits.maxEntries >= 1 && Deleted(t, limits, owner, author, at).1.Success?
    requires DocidsApart(t.fields) && DocidsApart(t.notes)
    ensures var t' := Deleted(t, limits, owner, author, at).0;
            && t'.personas == t.personas - {owner}
            && (forall k :: k in t'.fields.rows <==> k in t.fields.rows && t.fields.rows[k].owner != owner)
            && (forall k :: k in t'.notes.rows <==> k in t.notes.rows && t.notes.rows[k].owner != owner)
            && (forall k ::
                k in t.fields.rows && t.fields.rows[k].owner == owner ==> t.fields.rows[k].docid !in t'.fields.index)
            && (forall k ::
                k in t.notes.rows && t.notes.rows[k].owner == owner ==> t.notes.rows[k].docid !in t'.notes.index)
            && (forall e :: e in t'.log.events && e.owner == owner ==> e.oldValue == None)
            && Newest(t'.log, Event(0, at, owner, PersonaDeleted, owner.profile, Blank, author, None))
  {
    var e := Event(0, at, owner, PersonaDeleted, owner.profile, Blank, author, None);
    var struck := DeletePersona(t, owner).After(t).log;
    AppendedIsNewest(struck, limits.maxEntries, e);
    forall x | x in Appended(struck, limits.maxEntries, e).events && x.owner == owner ensures x.oldValue == None {
      AboveOnlyDrops(struck.events + [e.(sequence := struck.last + 1)], struck.last + 1 - limits.maxEntries, x);
      if x in struck.events { StrippedOfValues(t.log.events, owner, x); }
    }
  }

  lemma {:induction false} AboveOnlyDrops(events: seq<Event>, bound: int, e: Event)
    requires e in Above(events, bound)
    ensures e in events
  {
    if events != [] && e in Above(events[1..], bound) {
      AboveOnlyDrops(events[1..], bound, e);
    }
  }

  lemma StrippedOfValues(events: seq<Event>, owner: Owner, e: Event)
    requires e in Struck(events, {AboutPersona(owner)}) && e.owner == owner
    ensures e.oldValue == None
  {
    var i :| 0 <= i < |events| && Struck(events, {AboutPersona(owner)})[i] == e;
    assert Covers(AboutPersona(owner), events[i]);
  }
}
