/** Exactly what each writing call answers, refusals and their order included, said on the
    arguments as the caller gave them and on the rows as they stand. */
module Answered {
  import opened Wrappers
  import opened Text
  import opened Json
  import opened Tables
  import opened Erasure
  import opened Transactions
  import opened FieldValues
  import opened Keys
  import opened Vetting
  import opened Shapes
  import opened Books
  import opened FieldStore
  import opened NoteStore
  import opened PersonaStore

  // ---- texts ----------------------------------------------------------------------------------

  /** A text that is refused with `blank` when nothing or too much of it is left without the
      spaces around it, and otherwise kept as what is left. */
  lemma TextIsKept(u: Unicode, raw: string, limit: int, blank: Error, text: string)
    requires IsCore(raw, u.isSpace, text)
    ensures Trimmed(u, raw, limit, blank) == if text == "" || |text| > limit then Failure(blank) else Success(text)
  {
    TrimIsCore(raw, u.isSpace, text);
  }

  lemma NoteBodyIsVetted(u: Unicode, raw: string, maxChars: int, body: string)
    requires IsCore(raw, u.isSpace, body)
    ensures VetBody(u, raw, maxChars)
            == if body == "" || |body| > maxChars then Failure(InvalidNote)
               else if CredentialShaped(u, body) then Failure(CredentialRefused)
               else Success(body)
  {
    TextIsKept(u, raw, maxChars, InvalidNote, body);
    RefusedExactly(u, body);
  }

  /** A field is vetted key first, then description, then value; and only then is what would be
      stored held against the shapes of credentials. */
  lemma FieldIsVetted(u: Unicode, limits: ValueLimits, rawKey: string, rawDescription: string, value: Json,
                      description: string)
    requires IsCore(rawDescription, u.isSpace, description)
    ensures var vetted := VetField(u, limits, rawKey, rawDescription, value);
            if NormalizeKey(u, rawKey).Failure? || description == "" || |description| > 200
            then vetted == Failure(InvalidFieldKey)
            else if ValidateValue(value, limits).Failure? then vetted == Failure(ValidateValue(value, limits).error)
            else if CredentialShaped(u, ValidateValue(value, limits).value) || CredentialShaped(u, description)
            then vetted == Failure(CredentialRefused)
            else
              && vetted.Success?
              && vetted.value.key == NormalizeKey(u, rawKey).value && vetted.value.description == description
              && vetted.value.valueJson == ValidateValue(value, limits).value
  {
    TextIsKept(u, rawDescription, 200, InvalidFieldKey, description);
    RefusedExactly(u, description);
    if ValidateValue(value, limits).Success? { RefusedExactly(u, ValidateValue(value, limits).value); }
  }

  /** A value is refused for its shape, or else for the length of its text in bytes. */
  lemma ValueIsVetted(value: Json, limits: ValueLimits)
    ensures ValidateValue(value, limits).Success? <==>
              Shallow(value, limits) && |Utf8.Encode(Canonical(value))| <= limits.maxBytes
    ensures ValidateValue(value, limits).Success? ==> ValidateValue(value, limits).value == Canonical(value)
    ensures Shallow(value, limits) && |Utf8.Encode(Canonical(value))| > limits.maxBytes ==>
              ValidateValue(value, limits) == Failure(InvalidFieldValue(BytesLimit))
  {
    CheckAccepts(value, limits);
  }

  // ---- cards --------------------------------------------------------------------------------------

  /** One text of a card: absent if it is not given or blank, and otherwise what is left of it
      without the spaces around it. */
  ghost predicate CardTextIs(u: Unicode, raw: Option<string>, text: Option<string>) {
    if raw.None? || IsCore(raw.value, u.isSpace, "") then text == None
    else text.Some? && IsCore(raw.value, u.isSpace, text.value)
  }

  predicate TooLong(text: Option<string>, limit: nat) {
    text.Some? && |text.value| > limit
  }

  ghost predicate IsShaped(u: Unicode, text: Option<string>) {
    text.Some? && CredentialShaped(u, text.value)
  }

  lemma CardTextIsNormalized(u: Unicode, raw: Option<string>, limit: nat, text: Option<string>)
    requires CardTextIs(u, raw, text)
    ensures NormalizeCardText(u, raw, limit) == if TooLong(text, limit) then Failure(InvalidProfile) else Success(text)
  {
    if raw.Some? {
      TrimIsCore(raw.value, u.isSpace, "");
      if text.Some? { TrimIsCore(raw.value, u.isSpace, text.value); }
    }
  }

  lemma CardTextIsChecked(u: Unicode, text: Option<string>)
    ensures RefuseIfPresent(u, text) == if IsShaped(u, text) then Failure(CredentialRefused) else Success(())
  {
    if text.Some? { RefusedExactly(u, text.value); }
  }

  ghost predicate CardIs(u: Unicode, raw: CardText, text: CardText) {
    && CardTextIs(u, raw.displayName, text.displayName) && CardTextIs(u, raw.pronouns, text.pronouns)
    && CardTextIs(u, raw.summary, text.summary)
  }

  predicate CardTooLong(text: CardText) {
    TooLong(text.displayName, 120) || TooLong(text.pronouns, 40) || TooLong(text.summary, 600)
  }

  ghost predicate CardIsShaped(u: Unicode, text: CardText) {
    IsShaped(u, text.displayName) || IsShaped(u, text.pronouns) || IsShaped(u, text.summary)
  }

  lemma CardIsVetted(u: Unicode, raw: CardText, text: CardText)
    requires CardIs(u, raw, text)
    ensures VetCard(u, raw)
            == if CardTooLong(text) then Failure(InvalidProfile)
               else if CardIsShaped(u, text) then Failure(CredentialRefused)
               else Success(text)
  {
    CardTextIsNormalized(u, raw.displayName, 120, text.displayName);
    CardTextIsNormalized(u, raw.pronouns, 40, text.pronouns);
    CardTextIsNormalized(u, raw.summary, 600, text.summary);
    CardTextIsChecked(u, text.displayName);
    CardTextIsChecked(u, text.pronouns);
    CardTextIsChecked(u, text.summary);
  }

  // ---- personas -----------------------------------------------------------------------------------

  lemma CreateIsAnswered(u: Unicode, t: Tables, limits: Limits, owner: Owner, raw: CardText, id: string,
                         author: Author, now: Instant, at: Instant, text: CardText)
    requires CardIs(u, raw, text)
    ensures var (t', reply) := Created(u, t, limits, owner, raw, id, author, now, at);
            && reply ==
               (if CardTooLong(text) then Failure(InvalidProfile)
                else if CardIsShaped(u, text) then Failure(CredentialRefused)
                else if owner in t.personas then Failure(PersonaExists)
                else if |set o | o in t.personas && o.account == owner.account| >= limits.maxPersonas
                then Failure(LimitExceeded(PersonasCap))
                else if exists o :: o in t.personas && t.personas[o].personaId == id then Failure(ConstraintFailed)
                else Success(Card(id, text.displayName, text.pronouns, text.summary, now, now)))
            && (reply.Failure? ==> t' == t)
            && (reply.Success? ==>
                  && t'.personas == t.personas[owner := reply.value]
                  && t'.fields == t.fields && t'.notes == t.notes)
  {
    CardIsVetted(u, raw, text);
  }

  /** Asking for a persona gives the one there is and changes nothing, or makes a blank one, as far
      as the account has room. */
  lemma EnsureIsAnswered(u: Unicode, t: Tables, limits: Limits, owner: Owner, id: string, author: Author,
                         now: Instant, at: Instant)
    ensures var (t', reply) := Ensured(u, t, limits, owner, id, author, now, at);
            && reply ==
               (if owner in t.personas then Success(t.personas[owner])
                else if |set o | o in t.personas && o.account == owner.account| >= limits.maxPersonas
                then Failure(LimitExceeded(PersonasCap))
                else if exists o :: o in t.personas && t.personas[o].personaId == id then Failure(ConstraintFailed)
                else Success(Card(id, None, None, None, now, now)))
            && (reply.Failure? || owner in t.personas ==> t' == t)
            && (reply.Success? ==>
                  t'.personas == t.personas[owner := reply.value] && t'.fields == t.fields && t'.notes == t.notes)
  {
    if owner !in t.personas {
      var blank := CardText(None, None, None);
      CreateIsAnswered(u, t, limits, owner, blank, id, author, now, at, blank);
    }
  }

  lemma UpdateIsAnswered(u: Unicode, t: Tables, limits: Limits, owner: Owner, raw: CardText, author: Author,
                         now: Instant, at: Instant, text: CardText)
    requires CardIs(u, raw, text)
    ensures var (t', reply) := Updated(u, t, limits, owner, raw, author, now, at);
            && reply ==
               (if CardTooLong(text) then Failure(InvalidProfile)
                else if CardIsShaped(u, text) then Failure(CredentialRefused)
                else if owner !in t.personas then Failure(PersonaNotFound)
                else Success(Card(t.personas[owner].personaId, text.displayName, text.pronouns, text.summary,
                                  t.personas[owner].createdAt, now)))
            && (reply.Failure? ==> t' == t)
            && (reply.Success? ==>
                  t'.personas == t.personas[owner := reply.value] && t'.fields == t.fields && t'.notes == t.notes)
  {
    CardIsVetted(u, raw, text);
  }

  // ---- notes ----------------------------------------------------------------------------------------

  /** The live rows of an owner, and the pinned ones among them. */
  function LiveOf<K, C>(rows: map<K, Row<C>>, owner: Owner): set<K> {
    set k | k in rows && rows[k].owner == owner && rows[k].forgottenAt == None
  }

  function PinnedOf<K, C>(rows: map<K, Row<C>>, owner: Owner): set<K> {
    set k | k in rows && rows[k].owner == owner && rows[k].forgottenAt == None && rows[k].pinned
  }

  lemma CountedAsLive<K, C>(rows: map<K, Row<C>>, owner: Owner)
    ensures LiveKeys(rows, owner) == LiveOf(rows, owner) && PinnedKeys(rows, owner) == PinnedOf(rows, owner)
  {
  }

  /** Why a vetted note is refused: no room, no room among the pinned, or no persona. */
  function NoteRefused(t: Tables, limits: Limits, r: WriteRequest, o: Outside): Option<Error> {
    if |LiveOf(t.notes.rows, r.owner)| >= limits.maxNotes then Some(LimitExceeded(RowsCap))
    else if r.pinned && |PinnedOf(t.notes.rows, r.owner)|
                        >= (if r.ceiling.Some? then r.ceiling.value else limits.maxPinnedNotes)
    then Some(LimitExceeded(PinnedCap))
    else if r.owner !in t.personas || o.freshId in t.notes.rows then Some(ConstraintFailed)
    else None
  }

  lemma NoteIsWritten(t: Tables, limits: Limits, r: WriteRequest, o: Outside)
    ensures var after := WriteNote(t, limits, r, o);
            && (after.RolledBack? <==> NoteRefused(t, limits, r, o).Some?)
            && (after.RolledBack? ==> Some(after.error) == NoteRefused(t, limits, r, o))
            && (after.Committed? ==>
                  && after.result == Row(r.owner, o.freshId, t.notes.next + 1, NoteContent(r.body, r.kind), r.author,
                                         r.pinned, 1, o.now, o.now, None, None)
                  && after.db.notes.rows == t.notes.rows[o.freshId := after.result]
                  && after.db.notes.index == t.notes.index[t.notes.next + 1 := r.body]
                  && after.db.fields == t.fields && after.db.personas == t.personas)
  {
    CountedAsLive(t.notes.rows, r.owner);
  }

  /** Writing a note stores what is left of its body without the spaces around it, or is refused:
      for a body that is blank or too long, for one shaped like a credential, for want of room, of
      room among the pinned, or of a persona; in that order. */
  lemma WriteIsAnswered(u: Unicode, maxChars: int, t: Tables, limits: Limits, raw: WriteRequest, o: Outside,
                        body: string)
    requires IsCore(raw.body, u.isSpace, body)
    ensures var after := WriteRaw(u, maxChars, t, limits, raw, o);
            if body == "" || |body| > maxChars then after == RolledBack(InvalidNote)
            else if CredentialShaped(u, body) then after == RolledBack(CredentialRefused)
            else if NoteRefused(t, limits, raw, o).Some? then after == RolledBack(NoteRefused(t, limits, raw, o).value)
            else
              && after.Committed?
              && after.result == Row(raw.owner, o.freshId, t.notes.next + 1, NoteContent(body, raw.kind), raw.author,
                                     raw.pinned, 1, o.now, o.now, None, None)
              && after.db.notes.rows == t.notes.rows[o.freshId := after.result]
              && after.db.notes.index == t.notes.index[t.notes.next + 1 := body]
              && after.db.fields == t.fields && after.db.personas == t.personas
  {
    NoteBodyIsVetted(u, raw.body, maxChars, body);
    NoteIsWritten(t, limits, raw.(body := body), o);
  }

  /** What a note says once it is revised. */
  function ContentRevised(was: NoteContent, r: ReviseRequest): NoteContent {
    NoteContent(if r.body.Some? then r.body.value else was.body, if r.kind.Some? then r.kind.value else was.kind)
  }

  function PinRevised(was: bool, asked: Option<bool>): bool {
    if asked.Some? then asked.value else was
  }

  /** Why a vetted revision is refused: there is no such live note of this persona, or no room among
      the pinned for one that was not. */
  function RevisionRefused(t: Tables, limits: Limits, r: ReviseRequest): Option<Error> {
    if !(r.noteId in t.notes.rows && t.notes.rows[r.noteId].owner == r.owner
         && t.notes.rows[r.noteId].forgottenAt == None) then Some(NoteNotFound)
    else if r.pinned == Some(true) && !t.notes.rows[r.noteId].pinned
            && |PinnedOf(t.notes.rows, r.owner)|
               >= (if r.ceiling.Some? then r.ceiling.value else limits.maxPinnedNotes)
    then Some(LimitExceeded(PinnedCap))
    else None
  }

  lemma RevisionIsRefused(t: Tables, limits: Limits, r: ReviseRequest, o: Outside)
    ensures ReviseNote(t, limits, r, o).RolledBack? <==> RevisionRefused(t, limits, r).Some?
    ensures ReviseNote(t, limits, r, o).RolledBack? ==>
              Some(ReviseNote(t, limits, r, o).error) == RevisionRefused(t, limits, r)
  {
    CountedAsLive(t.notes.rows, r.owner);
  }

  lemma NoteIsRevised(t: Tables, limits: Limits, r: ReviseRequest, o: Outside)
    requires ReviseNote(t, limits, r, o).Committed?
    ensures r.noteId in t.notes.rows
    ensures var was, after := t.notes.rows[r.noteId], ReviseNote(t, limits, r, o);
            var content, pinned := ContentRevised(was.content, r), PinRevised(was.pinned, r.pinned);
            if content == was.content && pinned == was.pinned then after.db == t && after.result == was
            else
              && after.result == was.(content := content, pinned := pinned, author := r.author,
                                      revision := was.revision + 1, updatedAt := o.now)
              && after.db.notes.rows == t.notes.rows[r.noteId := after.result]
              && after.db.notes.index == t.notes.index[was.docid := content.body]
              && after.db.fields == t.fields && after.db.personas == t.personas
  {
  }

  /** Revising looks at the body first, then for the note, and then for room among the pinned if
      it pins what was not pinned; what is as it was is left alone. */
  lemma ReviseIsAnswered(u: Unicode, maxChars: int, t: Tables, limits: Limits, raw: ReviseRequest, o: Outside,
                         body: string)
    requires raw.body.Some? ==> IsCore(raw.body.value, u.isSpace, body)
    ensures var after := ReviseRaw(u, maxChars, t, limits, raw, o);
            var r := if raw.body.Some? then raw.(body := Some(body)) else raw;
            if raw.body.Some? && (body == "" || |body| > maxChars) then after == RolledBack(InvalidNote)
            else if raw.body.Some? && CredentialShaped(u, body) then after == RolledBack(CredentialRefused)
            else if RevisionRefused(t, limits, r).Some? then after == RolledBack(RevisionRefused(t, limits, r).value)
            else after.Committed? && after == ReviseNote(t, limits, r, o)
  {
    if raw.body.Some? {
      NoteBodyIsVetted(u, raw.body.value, maxChars, body);
      RevisionIsRefused(t, limits, raw.(body := Some(body)), o);
    } else {
      RevisionIsRefused(t, limits, raw, o);
    }
  }

  // ---- fields ---------------------------------------------------------------------------------------

  /** A row whose term has come is as good as gone. */
  predicate Overdue(t: Tables, k: FieldKey, now: Instant) {
    k in t.fields.rows && t.fields.rows[k].purgeAfter.Some? && t.fields.rows[k].purgeAfter.value <= now
  }

  /** Why a vetted field write is refused: no room for a key that is not live, no room for a pin
      that is new, no persona for a new row (or its minted id is another's); in that order. */
  function WriteRefused(t: Tables, limits: Limits, r: SetRequest, o: Outside): Option<Error> {
    var k := FieldKey(r.owner, r.write.key);
    var there := k in t.fields.rows && !Overdue(t, k, o.now);
    var wasPinned := there && t.fields.rows[k].pinned;
    if !(k in t.fields.rows && t.fields.rows[k].forgottenAt == None)
       && |LiveOf(t.fields.rows, r.owner)| >= limits.maxFields
    then Some(LimitExceeded(RowsCap))
    else if r.pinned == Some(true) && !wasPinned
            && |PinnedOf(t.fields.rows, r.owner)|
               >= (if r.ceiling.Some? then r.ceiling.value else limits.maxPinnedFields)
    then Some(LimitExceeded(PinnedCap))
    else if !there && (r.owner !in t.personas
                       || exists j :: j in t.fields.rows && j != k && t.fields.rows[j].content.fieldId == o.freshId)
    then Some(ConstraintFailed)
    else None
  }

  lemma OverdueCounts(t: Tables, k: FieldKey, owner: Owner)
    requires k in t.fields.rows && t.fields.rows[k].forgottenAt.Some?
    ensures LiveKeys(DestroyFields(t, {k}).fields.rows, owner) == LiveOf(t.fields.rows, owner)
    ensures PinnedKeys(DestroyFields(t, {k}).fields.rows, owner) == PinnedOf(t.fields.rows, owner)
  {
  }

  lemma FieldWriteIsAnswered(t: Tables, limits: Limits, r: SetRequest, o: Outside)
    requires LiveRowsHaveNoTerm(t.fields)
    ensures SetField(t, limits, r, o).RolledBack? <==> WriteRefused(t, limits, r, o).Some?
    ensures SetField(t, limits, r, o).RolledBack? ==>
              Some(SetField(t, limits, r, o).error) == WriteRefused(t, limits, r, o)
  {
    var k := FieldKey(r.owner, r.write.key);
    if Overdue(t, k, o.now) {
      OverdueWriteIsAnswered(t, limits, r, o);
    } else if k in t.fields.rows {
      KnownWriteIsAnswered(t, limits, r, o);
    } else {
      NewWriteIsAnswered(t, limits, r, o);
    }
  }

  lemma OverdueWriteIsAnswered(t: Tables, limits: Limits, r: SetRequest, o: Outside)
    requires Overdue(t, FieldKey(r.owner, r.write.key), o.now)
    requires t.fields.rows[FieldKey(r.owner, r.write.key)].forgottenAt.Some?
    ensures SetField(t, limits, r, o).RolledBack? <==> WriteRefused(t, limits, r, o).Some?
    ensures SetField(t, limits, r, o).RolledBack? ==>
              Some(SetField(t, limits, r, o).error) == WriteRefused(t, limits, r, o)
  {
    var k := FieldKey(r.owner, r.write.key);
    OverdueCounts(t, k, r.owner);
    OverdueIds(t, k, o.freshId);
  }

  lemma NewWriteIsAnswered(t: Tables, limits: Limits, r: SetRequest, o: Outside)
    requires FieldKey(r.owner, r.write.key) !in t.fields.rows
    ensures SetField(t, limits, r, o).RolledBack? <==> WriteRefused(t, limits, r, o).Some?
    ensures SetField(t, limits, r, o).RolledBack? ==>
              Some(SetField(t, limits, r, o).error) == WriteRefused(t, limits, r, o)
  {
    CountedAsLive(t.fields.rows, r.owner);
    assert FieldIdTaken(t.fields.rows, o.freshId)
           <==> exists j :: j in t.fields.rows && j != FieldKey(r.owner, r.write.key)
                            && t.fields.rows[j].content.fieldId == o.freshId;
  }

  lemma OverdueIds(t: Tables, k: FieldKey, id: string)
    ensures FieldIdTaken(DestroyFields(t, {k}).fields.rows, id)
            <==> exists j :: j in t.fields.rows && j != k && t.fields.rows[j].content.fieldId == id
  {
    var rows := DestroyFields(t, {k}).fields.rows;
    forall j ensures j in rows <==> j in t.fields.rows && j != k {
    }
    if j :| j in t.fields.rows && j != k && t.fields.rows[j].content.fieldId == id {
      assert j in rows && rows[j].content.fieldId == id;
    }
  }

  lemma KnownWriteIsAnswered(t: Tables, limits: Limits, r: SetRequest, o: Outside)
    requires var k := FieldKey(r.owner, r.write.key); k in t.fields.rows && !Overdue(t, k, o.now)
    ensures SetField(t, limits, r, o).RolledBack? <==> WriteRefused(t, limits, r, o).Some?
    ensures SetField(t, limits, r, o).RolledBack? ==>
              Some(SetField(t, limits, r, o).error) == WriteRefused(t, limits, r, o)
  {
    CountedAsLive(t.fields.rows, r.owner);
  }

  /** A write asks for what its caller asked for. */
  lemma SetIsAnswered(u: Unicode, valueLimits: ValueLimits, t: Tables, limits: Limits, raw: RawField, o: Outside)
    ensures var after := SetRaw(u, valueLimits, t, limits, raw, o);
            var vetted := VetField(u, valueLimits, raw.key, raw.description, raw.value);
            if vetted.Failure? then after == RolledBack(vetted.error)
            else
              exists r: SetRequest ::
                && r.owner == raw.owner && r.write == vetted.value && r.author == raw.author && r.pinned == raw.pinned
                && r.ceiling == raw.ceiling && r.logValues == raw.logValues && after == SetField(t, limits, r, o)
  {
    var vetted := VetField(u, valueLimits, raw.key, raw.description, raw.value);
    if vetted.Success? {
      var r := SetRequest(raw.owner, vetted.value, raw.author, raw.pinned, raw.ceiling, raw.logValues);
      assert SetRaw(u, valueLimits, t, limits, raw, o) == SetField(t, limits, r, o);
    }
  }

  // ---- forgetting -------------------------------------------------------------------------------------

  /** The term a policy gives a row forgotten now, and whether that is still on the calendar, which
      has 3652059 days. */
  function Term(p: ErasurePolicy, now: Instant): Option<Instant> {
    if p.mode == Grace then Some(now + p.graceDays * 86_400_000_000) else None
  }

  predicate OffCalendar(term: Option<Instant>) {
    term.Some? && !(0 <= term.value < 3_652_059 * 86_400_000_000)
  }

  /** Forgetting a field is refused for what cannot be a key, for a term off the calendar, and for a
      field that is not there or not live; in that order.  Otherwise the row is gone, if that is the
      policy, or hidden with its term; everything else about it stays. */
  lemma ForgetFieldIsAnswered(u: Unicode, t: Tables, limits: Limits, rawKey: string, r: ForgetRequest, o: Outside)
    ensures var after := ForgetRaw(u, t, limits, rawKey, r, o);
            if NormalizeKey(u, rawKey).Failure? then after == RolledBack(InvalidFieldKey)
            else if OffCalendar(Term(r.erasure, o.now)) then after == RolledBack(InstantOutOfRange)
            else
              var k := FieldKey(r.owner, NormalizeKey(u, rawKey).value);
              if !(k in t.fields.rows && t.fields.rows[k].forgottenAt == None) then after == RolledBack(FieldNotFound)
              else
                && after.Committed? && after.db.notes == t.notes && after.db.personas == t.personas
                && after.db.fields.index == t.fields.index - {t.fields.rows[k].docid}
                && after.db.fields.rows
                   == if r.erasure.mode == Immediate then t.fields.rows - {k}
                      else t.fields.rows[k := t.fields.rows[k].(forgottenAt := Some(o.now), updatedAt := o.now,
                                                                purgeAfter := Term(r.erasure, o.now))]
  {
  }

  lemma ForgetNoteIsAnswered(t: Tables, limits: Limits, r: ForgetRequest, o: Outside)
    ensures var after := ForgetNote(t, limits, r, o);
            if OffCalendar(Term(r.erasure, o.now)) then after == RolledBack(InstantOutOfRange)
            else if !(r.subject in t.notes.rows && t.notes.rows[r.subject].owner == r.owner
                      && t.notes.rows[r.subject].forgottenAt == None) then after == RolledBack(NoteNotFound)
            else
              && after.Committed? && after.db.fields == t.fields && after.db.personas == t.personas
              && after.db.notes.index == t.notes.index - {t.notes.rows[r.subject].docid}
              && after.db.notes.rows
                 == if r.erasure.mode == Immediate then t.notes.rows - {r.subject}
                    else t.notes.rows[r.subject := t.notes.rows[r.subject].(
                                        forgottenAt := Some(o.now), updatedAt := o.now,
                                        purgeAfter := Term(r.erasure, o.now))]
  {
  }
}
