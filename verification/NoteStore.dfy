/** The note store, statement by statement, proved to compute the note transactions. */
module NoteStore {
  import opened Wrappers
  import opened Tables
  import opened Erasure
  import opened Storage
  import opened Transactions
  import opened Text
  import opened Vetting
  import opened Secrets
  import opened Due
  import opened Paging
  import opened Query
  import opened Search

  /** A note as a caller supplies it, with the body still unvetted. */
  function WriteRaw(u: Unicode, maxChars: int, t: Tables, limits: Limits, raw: WriteRequest,
                    o: Outside): Outcome<NoteRow> {
    var body := VetBody(u, raw.body, maxChars);
    if body.Failure? then RolledBack(body.error) else WriteNote(t, limits, raw.(body := body.value), o)
  }

  function ReviseRaw(u: Unicode, maxChars: int, t: Tables, limits: Limits, raw: ReviseRequest,
                     o: Outside): Outcome<NoteRow> {
    if raw.body.None? then ReviseNote(t, limits, raw, o)
    else
      var body := VetBody(u, raw.body.value, maxChars);
      if body.Failure? then RolledBack(body.error) else ReviseNote(t, limits, raw.(body := Some(body.value)), o)
  }

  datatype NoteFilters = NoteFilters(kind: Option<NoteKind>, source: Option<Source>, pinned: Option<bool>,
                                     since: Option<Instant>, until: Option<Instant>, includeForgotten: bool)

  predicate Satisfies(row: NoteRow, owner: Owner, f: NoteFilters) {
    && row.owner == owner
    && (f.includeForgotten || row.Live())
    && (f.kind.Some? ==> row.content.kind == f.kind.value)
    && (f.source.Some? ==> row.author.source == f.source.value)
    && (f.pinned.Some? ==> row.pinned == f.pinned.value)
    && (f.since.Some? ==> row.createdAt >= f.since.value)
    && (f.until.Some? ==> row.createdAt < f.until.value)
  }

  function AllNotes(includeForgotten: bool): NoteFilters {
    NoteFilters(None, None, None, None, None, includeForgotten)
  }

  function NotePositions(rows: map<string, NoteRow>, owner: Owner, f: NoteFilters): set<Position> {
    set k | k in rows && Satisfies(rows[k], owner, f) :: Position(rows[k].createdAt, k)
  }

  function NoteRevisedEvent(row: NoteRow, r: ReviseRequest, o: Outside, body: string): Event {
    Event(0, o.at, r.owner, NoteRevised, r.noteId, RevisionNumber(row.revision + 1), r.author,
          ReplacedBody(r.logValues, row.content.body, body))
  }

  /** What a revision that changes something and is not refused comes to. */
  lemma RevisedOutcome(t: Tables, limits: Limits, r: ReviseRequest, o: Outside)
    requires HasLiveNote(t, r.owner, r.noteId)
    requires var row := t.notes.rows[r.noteId];
             var row' := RevisedNote(row, r, o.now);
             && !(row'.content == row.content && row'.pinned == row.pinned)
             && CapError(t.notes.rows, r.owner, false, row'.pinned && !row.pinned, limits.maxNotes,
                         Ceiling(r.ceiling, limits.maxPinnedNotes)) == None
    ensures var row := t.notes.rows[r.noteId];
            var row' := RevisedNote(row, r, o.now);
            var after := ReviseNote(t, limits, r, o);
            && after.Committed? && after.result == row'
            && after.db == Said(WithNotes(t, Rewritten(t.notes, r.noteId, row', row'.content.body)), limits,
                                NoteRevisedEvent(row, r, o, row'.content.body))
  {
  }

  class NoteStore {
    const conn: Connection
    const events: SqlEventLog
    const limits: Limits
    const maxBodyChars: int
    const u: Unicode

    constructor (conn: Connection, events: SqlEventLog, limits: Limits, maxBodyChars: int, u: Unicode)
      requires events.conn == conn && events.maxEntries == limits.maxEntries
      ensures this.conn == conn && this.limits == limits && this.maxBodyChars == maxBodyChars && this.u == u && Wired()
    {
      this.conn, this.events, this.limits, this.maxBodyChars, this.u := conn, events, limits, maxBodyChars, u;
    }

    ghost predicate Wired() {
      events.conn == conn && events.maxEntries == limits.maxEntries
    }

    /** Record one note. */
    method Write(raw: WriteRequest, o: Outside) returns (out: Result<NoteRow, Error>)
      requires Wired() && conn.Valid() && conn.saved == None
      modifies conn
      ensures conn.Valid() && conn.saved == None
      ensures conn.Contents()
                == WriteRaw(u, maxBodyChars, old(conn.Contents()), limits, raw, o).After(old(conn.Contents()))
      ensures out == WriteRaw(u, maxBodyChars, old(conn.Contents()), limits, raw, o).Reply()
    {
      var body :- VetBody(u, raw.body, maxBodyChars);
      var r := raw.(body := body);
      WriteKeepsSound(conn.Contents(), limits, r, o);
      conn.Begin();
      out := DoWrite(r, o);
      if out.Failure? { conn.Rollback(); } else { conn.Commit(); }
    }

    method DoWrite(r: WriteRequest, o: Outside) returns (out: Result<NoteRow, Error>)
      requires Wired() && conn.Valid()
      modifies conn
      ensures conn.saved == old(conn.saved)
      ensures out == WriteNote(old(conn.Contents()), limits, r, o).Reply()
      ensures out.Success? ==>
                conn.Contents() == WriteNote(old(conn.Contents()), limits, r, o).After(old(conn.Contents()))
    {
      var refusal := CheckCaps(r.owner, true, r.pinned, Ceiling(r.ceiling, limits.maxPinnedNotes));
      if refusal.Some? {
        return Failure(refusal.value);
      }
      var docid := conn.NextNoteSeq();
      if r.owner !in conn.personas || o.freshId in conn.notes {
        return Failure(ConstraintFailed);
      }
      conn.notes := conn.notes[o.freshId := Row(r.owner, o.freshId, docid, NoteContent(r.body, r.kind), r.author,
                                                r.pinned, 1, o.now, o.now, None, None)];
      conn.IndexNote(docid, r.body);
      events.Append(Event(0, o.at, r.owner, NoteWritten, o.freshId, OfKind(r.kind), r.author, None));
      out := Success(conn.notes[o.freshId]);
    }

    /** Change the parts of a note that are named. */
    method Revise(raw: ReviseRequest, o: Outside) returns (out: Result<NoteRow, Error>)
      requires Wired() && conn.Valid() && conn.saved == None
      modifies conn
      ensures conn.Valid() && conn.saved == None
      ensures conn.Contents()
                == ReviseRaw(u, maxBodyChars, old(conn.Contents()), limits, raw, o).After(old(conn.Contents()))
      ensures out == ReviseRaw(u, maxBodyChars, old(conn.Contents()), limits, raw, o).Reply()
    {
      var r := raw;
      if raw.body.Some? {
        var body :- VetBody(u, raw.body.value, maxBodyChars);
        r := raw.(body := Some(body));
      }
      ReviseKeepsSound(conn.Contents(), limits, r, o);
      conn.Begin();
      out := DoRevise(r, o);
      if out.Failure? { conn.Rollback(); } else { conn.Commit(); }
    }

    method DoRevise(r: ReviseRequest, o: Outside) returns (out: Result<NoteRow, Error>)
      requires Wired() && conn.Valid()
      modifies conn
      ensures conn.saved == old(conn.saved)
      ensures out == ReviseNote(old(conn.Contents()), limits, r, o).Reply()
      ensures out.Success? ==>
                conn.Contents() == ReviseNote(old(conn.Contents()), limits, r, o).After(old(conn.Contents()))
    {
      if !(r.noteId in conn.notes && conn.notes[r.noteId].owner == r.owner && conn.notes[r.noteId].forgottenAt.None?) {
        return Failure(NoteNotFound);
      }
      var existing := conn.notes[r.noteId];
      var newBody := if r.body.None? then existing.content.body else r.body.value;
      var newKind := if r.kind.None? then existing.content.kind else r.kind.value;
      var newPinned := if r.pinned.None? then existing.pinned else r.pinned.value;
      if newBody == existing.content.body && newKind == existing.content.kind && newPinned == existing.pinned {
        return Success(existing);
      }
      if newPinned && !existing.pinned {
        var refusal := CheckCaps(r.owner, false, true, Ceiling(r.ceiling, limits.maxPinnedNotes));
        if refusal.Some? {
          return Failure(refusal.value);
        }
      }
      var revised := existing.(content := NoteContent(newBody, newKind), pinned := newPinned, author := r.author,
                               revision := existing.revision + 1, updatedAt := o.now);
      assert revised == RevisedNote(existing, r, o.now);
      RevisedOutcome(conn.Contents(), limits, r, o);
      SaveRevision(existing, revised, r, o);
      out := Success(revised);
    }

    /** The three writes of a revision: the row, its words, and the event. */
    method SaveRevision(existing: NoteRow, revised: NoteRow, r: ReviseRequest, o: Outside)
      requires Wired() && r.noteId in conn.notes && conn.notes[r.noteId].docid == revised.docid
      modifies conn`notes, conn`notesFts, conn`events, conn`lastSequence
      ensures conn.Contents()
           == Said(WithNotes(old(conn.Contents()),
                             Rewritten(old(conn.Contents()).notes, r.noteId, revised, revised.content.body)),
                   limits, NoteRevisedEvent(existing, r, o, revised.content.body))
    {
      Rewrite(r.noteId, revised, revised.content.body);
      events.Append(Event(0, o.at, r.owner, NoteRevised, r.noteId, RevisionNumber(existing.revision + 1), r.author,
                          ReplacedBody(r.logValues, existing.content.body, revised.content.body)));
    }

    method Rewrite(k: string, row: NoteRow, text: string)
      requires k in conn.notes && row.docid == conn.notes[k].docid
      modifies conn`notes, conn`notesFts
      ensures conn.Contents() == WithNotes(old(conn.Contents()), Rewritten(old(conn.Contents()).notes, k, row, text))
    {
      conn.notes := conn.notes[k := row];
      Unindex(row.docid);
      conn.IndexNote(row.docid, text);
    }

    /** Forget one note: keep it, schedule it, or destroy it. */
    method Forget(r: ForgetRequest, o: Outside) returns (out: Result<(), Error>)
      requires Wired() && conn.Valid() && conn.saved == None
      modifies conn
      ensures conn.Valid() && conn.saved == None
      ensures conn.Contents() == ForgetNote(old(conn.Contents()), limits, r, o).After(old(conn.Contents()))
      ensures out == ForgetNote(old(conn.Contents()), limits, r, o).Reply()
    {
      var purgeAfter :- r.erasure.PurgeAfter(o.now);
      ForgetKeepsSound(conn.Contents(), limits, r, o);
      conn.Begin();
      out := ForgetWrite(r, o, purgeAfter);
      if out.Failure? { conn.Rollback(); } else { conn.Commit(); }
    }

    method ForgetWrite(r: ForgetRequest, o: Outside, purgeAfter: Option<Instant>) returns (out: Result<(), Error>)
      requires Wired() && conn.Valid() && r.erasure.PurgeAfter(o.now) == Success(purgeAfter)
      modifies conn
      ensures conn.saved == old(conn.saved)
      ensures out == ForgetNote(old(conn.Contents()), limits, r, o).Reply()
      ensures out.Success? ==>
                conn.Contents() == ForgetNote(old(conn.Contents()), limits, r, o).After(old(conn.Contents()))
    {
      var k := r.subject;
      if !(k in conn.notes && conn.notes[k].owner == r.owner && conn.notes[k].forgottenAt.None?) {
        return Failure(NoteNotFound);
      }
      var docid := conn.notes[k].docid;
      conn.notes := conn.notes[k := conn.notes[k].(forgottenAt := Some(o.now), updatedAt := o.now,
                                                   purgeAfter := purgeAfter)];
      Unindex(docid);
      events.Append(Event(0, o.at, r.owner, NoteForgotten, k, r.erasure.Describe(purgeAfter), r.author, None));
      if r.erasure.DestroysNow() {
        var _ := Destroy([k]);
        assert {k} == ToSet([k]);
      }
      out := Success(());
    }

    method PurgeDue(now: Instant, limit: int) returns (gone: nat, ghost picked: set<string>)
      requires Wired() && conn.Valid() && conn.saved == None
      modifies conn
      ensures conn.Valid() && conn.saved == None
      ensures OldestDue(old(conn.Contents()).notes.rows, now, limit, picked)
      ensures conn.Contents() == PurgeNotes(old(conn.Contents()), picked).After(old(conn.Contents()))
      ensures gone == |picked|
    {
      conn.Begin();
      var due := SelectDue(conn.notes, now, limit);
      picked := ToSet(due);
      assert forall k :: k in due ==> k in ToSet(due);
      gone := Destroy(due);
      conn.Commit();
    }

    /** Destroy notes in the caller's transaction.  The event log is stripped by each row's
        own account and profile, which the query returned with it. */
    method Destroy(targets: seq<string>) returns (gone: nat)
      requires Wired() && conn.Valid() && forall k :: k in targets ==> k in conn.notes
      modifies conn
      ensures conn.saved == old(conn.saved) && conn.Valid()
      ensures conn.Contents() == DestroyNotes(old(conn.Contents()), ToSet(targets))
      ensures gone == |targets|
    {
      ghost var t := conn.Contents();
      var owners := map k | k in targets :: conn.notes[k].owner;
      var i := 0;
      DestroyNoNotes(t);
      assert ToSet(targets[..0]) == {};
      while i < |targets|
        invariant 0 <= i <= |targets|
        invariant conn.saved == old(conn.saved)
        invariant conn.Contents() == DestroyNotes(t, ToSet(targets[..i]))
      {
        var k := targets[i];
        conn.DeleteNote(k);
        events.StripValues(owners[k], NoteNoun, [k]);
        assert (set s | s in [k] :: AboutRow(owners[k], NoteNoun, s)) == {AboutRow(owners[k], NoteNoun, k)};
        DestroyOneMoreNote(t, ToSet(targets[..i]), k);
        assert ToSet(targets[..i + 1]) == ToSet(targets[..i]) + {k};
        i := i + 1;
      }
      assert targets[..i] == targets;
      gone := |targets|;
    }

    method Unindex(docid: nat)
      modifies conn`notesFts
      ensures conn.notesFts == old(conn.notesFts) - {docid}
    {
      conn.notesFts := conn.notesFts - {docid};
    }

    method CheckCaps(owner: Owner, adding: bool, addingPinned: bool, maxPinned: int) returns (refusal: Option<Error>)
      ensures refusal == CapError(conn.notes, owner, adding, addingPinned, limits.maxNotes, maxPinned)
    {
      if adding {
        var held := |LiveKeys(conn.notes, owner)|;
        if held >= limits.maxNotes {
          return Some(LimitExceeded(RowsCap));
        }
      }
      if addingPinned {
        var held := |PinnedKeys(conn.notes, owner)|;
        if held >= maxPinned {
          return Some(LimitExceeded(PinnedCap));
        }
      }
      return None;
    }

    // ---- reading ----------------------------------------------------------------------

    /** One page of this persona's notes, newest first. */
    method ListForPersona(owner: Owner, filters: NoteFilters, limit: nat, cursor: Option<Position>) returns (page: Page)
      requires limit >= 1
      ensures IsPage(NotePositions(conn.notes, owner, filters), cursor, limit, page)
    {
      page := FetchPage(NotePositions(conn.notes, owner, filters), cursor, limit);
    }

    /** The ranks are what `bm25` computes for this query over the whole index. */
    method Search(account: string, query: string, profile: Option<string>, rank: string -> real, limit: int)
        returns (out: Result<seq<string>, SearchError>)
      ensures MatchQuery(u, query).Failure? ==> out == Failure(InvalidSearch)
      ensures MatchQuery(u, query).Success? ==> out.Success?
      ensures MatchQuery(u, query).Success? ==>
        Answers(Hits(u, conn.Contents().notes, MatchQuery(u, query).value, account, profile), rank, limit,
                out.value)
    {
      var expression :- MatchQuery(u, query);
      var found := TakeBest(Hits(u, conn.Contents().notes, expression, account, profile), rank, limit);
      out := Success(found);
    }
  }

  lemma WriteKeepsSound(t: Tables, limits: Limits, r: WriteRequest, o: Outside)
    requires Sound(t)
    ensures Sound(WriteNote(t, limits, r, o).After(t))
  {
  }

  lemma ReviseKeepsSound(t: Tables, limits: Limits, r: ReviseRequest, o: Outside)
    requires Sound(t)
    ensures Sound(ReviseNote(t, limits, r, o).After(t))
  {
    var t' := ReviseNote(t, limits, r, o).After(t);
    assert forall k' ::
             k' in t'.notes.rows ==> k' == r.noteId || (k' in t.notes.rows && t'.notes.rows[k'] == t.notes.rows[k']);
  }

  lemma ForgetKeepsSound(t: Tables, limits: Limits, r: ForgetRequest, o: Outside)
    requires Sound(t)
    ensures Sound(ForgetNote(t, limits, r, o).After(t))
  {
    var t' := ForgetNote(t, limits, r, o).After(t);
    assert forall k' ::
             k' in t'.notes.rows ==> k' == r.subject || (k' in t.notes.rows && t'.notes.rows[k'] == t.notes.rows[k']);
  }

  lemma DestroyNoNotes(t: Tables)
    ensures DestroyNotes(t, {}) == t
  {
    StruckByNothing(t.log.events);
    assert Docids(t.notes.rows, {}) == {};
    assert t.notes.rows - {} == t.notes.rows && t.notes.index - {} == t.notes.index;
    assert Scopes(t.notes.rows, NoteNoun, {}) == {};
  }

  lemma DestroyOneMoreNote(t: Tables, ks: set<string>, k: string)
    requires Sound(t) && k in t.notes.rows
    ensures DestroyNotes(t, ks + {k}).notes == Without(DestroyNotes(t, ks).notes, {k})
    ensures DestroyNotes(t, ks + {k}).log.events
         == Struck(DestroyNotes(t, ks).log.events, {AboutRow(t.notes.rows[k].owner, NoteNoun, k)})
  {
    WithoutOneMore(t.notes, ks, k);
    StruckTwice(t.log.events, Scopes(t.notes.rows, NoteNoun, ks), {AboutRow(t.notes.rows[k].owner, NoteNoun, k)});
    assert Scopes(t.notes.rows, NoteNoun, ks + {k})
        == Scopes(t.notes.rows, NoteNoun, ks) + {AboutRow(t.notes.rows[k].owner, NoteNoun, k)};
  }
}
