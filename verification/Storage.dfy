/** The SQLite connection: the tables it holds, one open transaction at most, and the
    statements whose effect is more than one assignment. */
module Storage {
  import opened Wrappers
  import opened Tables
  import Paging

  /** What the schema's constraints and the docid counter make true of a shelf. */
  ghost predicate Numbered<K, C>(s: Shelf<K, C>) {
    && (forall k :: k in s.rows ==> s.rows[k].docid <= s.next)
    && (forall d :: d in s.index ==> d <= s.next)
  }

  ghost predicate Named(t: Tables) {
    && (forall k :: k in t.fields.rows ==> t.fields.rows[k].owner == k.owner && t.fields.rows[k].subject == k.key)
    && (forall k :: k in t.notes.rows ==> t.notes.rows[k].subject == k)
  }

  ghost predicate Sound(t: Tables) {
    Numbered(t.fields) && Numbered(t.notes) && Named(t)
  }

  class Connection {
    var personas: map<Owner, Card>
    var fields: map<FieldKey, FieldRow>
    var fieldsFts: map<nat, string>
    var fieldsNext: nat
    var notes: map<string, NoteRow>
    var notesFts: map<nat, string>
    var notesNext: nat
    var events: seq<Event>
    var lastSequence: nat
    /** The image ROLLBACK restores, while a transaction is open. */
    var saved: Option<Tables>

    function Contents(): Tables
      reads this
    {
      Tables(personas, Shelf(fields, fieldsFts, fieldsNext), Shelf(notes, notesFts, notesNext),
             Log(events, lastSequence))
    }

    ghost predicate Valid()
      reads this
    {
      Sound(Contents())
    }

    constructor ()
      ensures Contents() == EMPTY && saved == None && Valid()
    {
      personas, events, lastSequence := map[], [], 0;
      fields, fieldsFts, fieldsNext := map[], map[], 0;
      notes, notesFts, notesNext := map[], map[], 0;
      saved := None;
    }

    /** BEGIN IMMEDIATE */
    method Begin()
      requires saved == None
      modifies this`saved
      ensures saved == Some(Contents())
    {
      saved := Some(Contents());
    }

    method Commit()
      requires saved.Some?
      modifies this`saved
      ensures saved == None
    {
      saved := None;
    }

    method Rollback()
      requires saved.Some?
      modifies this
      ensures Contents() == old(saved.value) && saved == None
    {
      var image := saved.value;
      personas, events, lastSequence := image.personas, image.log.events, image.log.last;
      fields, fieldsFts, fieldsNext := image.fields.rows, image.fields.index, image.fields.next;
      notes, notesFts, notesNext := image.notes.rows, image.notes.index, image.notes.next;
      saved := None;
    }

    /** DELETE FROM fields by primary key, and the AFTER DELETE trigger. */
    method DeleteField(k: FieldKey)
      modifies this`fields, this`fieldsFts
      ensures Contents() == old(Contents()).(fields := Without(old(Contents()).fields, {k}))
    {
      if k in fields {
        fieldsFts := fieldsFts - {fields[k].docid};
        assert Docids(old(fields), {k}) == {old(fields)[k].docid};
      } else {
        assert Docids(old(fields), {k}) == {};
        assert fieldsFts == fieldsFts - {};
      }
      fields := fields - {k};
    }

    /** DELETE FROM notes by primary key, and the AFTER DELETE trigger. */
    method DeleteNote(k: string)
      modifies this`notes, this`notesFts
      ensures Contents() == old(Contents()).(notes := Without(old(Contents()).notes, {k}))
    {
      if k in notes {
        notesFts := notesFts - {notes[k].docid};
        assert Docids(old(notes), {k}) == {old(notes)[k].docid};
      } else {
        assert Docids(old(notes), {k}) == {};
        assert notesFts == notesFts - {};
      }
      notes := notes - {k};
    }

    /** UPDATE fts_sequence SET next = next + 1 ... RETURNING next */
    method NextFieldSeq() returns (docid: nat)
      modifies this`fieldsNext
      ensures docid == fieldsNext == old(fieldsNext) + 1
    {
      fieldsNext := fieldsNext + 1;
      docid := fieldsNext;
    }

    method NextNoteSeq() returns (docid: nat)
      modifies this`notesNext
      ensures docid == notesNext == old(notesNext) + 1
    {
      notesNext := notesNext + 1;
      docid := notesNext;
    }

    /** INSERT INTO fields_fts; a docid already there is refused by FTS5. */
    method IndexField(docid: nat, text: string)
      requires docid !in fieldsFts
      modifies this`fieldsFts
      ensures fieldsFts == old(fieldsFts)[docid := text]
    {
      fieldsFts := fieldsFts[docid := text];
    }

    method IndexNote(docid: nat, text: string)
      requires docid !in notesFts
      modifies this`notesFts
      ensures notesFts == old(notesFts)[docid := text]
    {
      notesFts := notesFts[docid := text];
    }
  }

  /** Where a persona's events stand in a listing: by sequence alone. */
  function EventPositions(events: seq<Event>, owner: Owner): set<Paging.Position> {
    set i | 0 <= i < |events| && events[i].owner == owner :: Paging.Position(events[i].sequence, "")
  }

  /** The events table, reached through somebody else's transaction. */
  class SqlEventLog {
    const conn: Connection
    const maxEntries: int

    constructor (conn: Connection, maxEntries: int)
      ensures this.conn == conn && this.maxEntries == maxEntries
    {
      this.conn, this.maxEntries := conn, maxEntries;
    }

    method Append(e: Event)
      modifies conn`events, conn`lastSequence
      ensures conn.Contents() == old(conn.Contents()).(log := Appended(old(conn.Contents()).log, maxEntries, e))
    {
      conn.lastSequence := conn.lastSequence + 1;
      conn.events := conn.events + [e.(sequence := conn.lastSequence)];
      conn.events := Above(conn.events, conn.lastSequence - maxEntries);
    }

    method StripValues(owner: Owner, noun: Noun, subjects: seq<string>)
      modifies conn`events
      ensures conn.events == Struck(old(conn.events), set s | s in subjects :: AboutRow(owner, noun, s))
      ensures |conn.events| == |old(conn.events)|
      ensures forall i :: 0 <= i < |conn.events| ==>
                var e := old(conn.events)[i];
                conn.events[i] == if e.owner == owner && e.action.Noun() == noun && e.subject in subjects
                                  then e.(oldValue := None) else e
    {
      StrippedOfSubjects(conn.events, owner, noun, subjects);
      var i := 0;
      StruckByNothing(conn.events);
      while i < |subjects|
        invariant 0 <= i <= |subjects|
        invariant conn.events == Struck(old(conn.events), set s | s in subjects[..i] :: AboutRow(owner, noun, s))
      {
        conn.events := Struck(conn.events, {AboutRow(owner, noun, subjects[i])});
        StruckTwice(old(conn.events), set s | s in subjects[..i] :: AboutRow(owner, noun, s),
                    {AboutRow(owner, noun, subjects[i])});
        assert subjects[..i + 1] == subjects[..i] + [subjects[i]];
        assert (set s | s in subjects[..i + 1] :: AboutRow(owner, noun, s))
            == (set s | s in subjects[..i] :: AboutRow(owner, noun, s)) + {AboutRow(owner, noun, subjects[i])};
        i := i + 1;
      }
      assert subjects[..i] == subjects;
    }

    method StripPersonaValues(owner: Owner)
      modifies conn`events
      ensures conn.events == Struck(old(conn.events), {AboutPersona(owner)})
      ensures |conn.events| == |old(conn.events)|
      ensures forall i :: 0 <= i < |conn.events| ==>
                var e := old(conn.events)[i];
                conn.events[i] == if e.owner == owner then e.(oldValue := None) else e
    {
      StrippedOfPersona(conn.events, owner);
      conn.events := Struck(conn.events, {AboutPersona(owner)});
    }

    /** One page of this persona's events, newest first. */
    method Recent(owner: Owner, limit: nat, cursor: Option<Paging.Position>) returns (page: Paging.Page)
      requires limit >= 1
      ensures Paging.IsPage(EventPositions(conn.events, owner), cursor, limit, page)
    {
      page := Paging.FetchPage(EventPositions(conn.events, owner), cursor, limit);
    }
  }

  /** What a strip of some subjects reaches: the events of that persona, about that kind of row,
      with one of those subjects; no other event is touched. */
  lemma StrippedOfSubjects(events: seq<Event>, owner: Owner, noun: Noun, subjects: seq<string>)
    ensures forall i :: 0 <= i < |events| ==>
              Struck(events, set s | s in subjects :: AboutRow(owner, noun, s))[i]
              == if events[i].owner == owner && events[i].action.Noun() == noun && events[i].subject in subjects
                 then events[i].(oldValue := None) else events[i]
  {
    var scopes := set s | s in subjects :: AboutRow(owner, noun, s);
    forall i | 0 <= i < |events| && events[i].subject in subjects
      ensures AboutRow(owner, noun, events[i].subject) in scopes
    {
    }
    forall i | 0 <= i < |events|
      ensures Covered(scopes, events[i])
              <==> events[i].owner == owner && events[i].action.Noun() == noun && events[i].subject in subjects
    {
      if events[i].owner == owner && events[i].action.Noun() == noun && events[i].subject in subjects {
        assert Covers(AboutRow(owner, noun, events[i].subject), events[i]);
      }
    }
  }

  lemma StrippedOfPersona(events: seq<Event>, owner: Owner)
    ensures forall i :: 0 <= i < |events| ==>
              Struck(events, {AboutPersona(owner)})[i]
              == if events[i].owner == owner then events[i].(oldValue := None) else events[i]
  {
    assert forall e: Event :: e.owner == owner ==> Covers(AboutPersona(owner), e);
  }

  lemma StruckByNothing(events: seq<Event>)
    ensures Struck(events, {}) == events
  {
    assert forall i :: 0 <= i < |events| ==> Struck(events, {})[i] == events[i];
  }

  /** Two strips are one strip of both scopes. */
  lemma StruckTwice(events: seq<Event>, first: set<Scope>, second: set<Scope>)
    ensures Struck(Struck(events, first), second) == Struck(events, first + second)
  {
    forall i | 0 <= i < |events|
      ensures StruckEvent(StruckEvent(events[i], first), second) == StruckEvent(events[i], first + second)
    {
      StruckEventTwice(events[i], first, second);
    }
  }

  lemma StruckEventTwice(e: Event, first: set<Scope>, second: set<Scope>)
    ensures StruckEvent(StruckEvent(e, first), second) == StruckEvent(e, first + second)
  {
    var e' := e.(oldValue := None);
    assert forall s :: Covers(s, e) <==> Covers(s, e');
    if Covered(first + second, e) {
      var s :| s in first + second && Covers(s, e);
    }
    if Covered(first, e) {
      var s :| s in first && Covers(s, e);
      assert s in first + second;
    }
    if Covered(second, e) {
      var s :| s in second && Covers(s, e);
      assert s in first + second;
    }
    if Covered(second, e') {
      var s :| s in second && Covers(s, e');
      assert s in second && Covers(s, e);
    }
  }
}
