/** The identity cards, the sweeper, and the service that puts each card change and its event
    in separate transactions. */
module PersonaStore {
  import opened Wrappers
  import opened Tables
  import opened Storage
  import opened Transactions
  import opened Text
  import opened Vetting
  import opened Due
  import opened Paging
  import FieldStore
  import NoteStore

  class PersonaStore {
    const conn: Connection
    const events: SqlEventLog

    constructor (conn: Connection, events: SqlEventLog)
      requires events.conn == conn
      ensures this.conn == conn && this.events == events
    {
      this.conn, this.events := conn, events;
    }

    method Add(owner: Owner, card: Card, cap: int) returns (out: Result<(), Error>)
      requires conn.Valid() && conn.saved == None
      modifies conn
      ensures conn.Valid() && conn.saved == None
      ensures conn.Contents() == AddPersona(old(conn.Contents()), owner, card, cap).After(old(conn.Contents()))
      ensures out == AddPersona(old(conn.Contents()), owner, card, cap).Reply()
    {
      conn.Begin();
      if owner in conn.personas {
        out := Failure(PersonaExists);
      } else if |PersonasOf(conn.personas, owner.account)| >= cap {
        out := Failure(LimitExceeded(PersonasCap));
      } else if exists o :: o in conn.personas && conn.personas[o].personaId == card.personaId {
        out := Failure(ConstraintFailed);
      } else {
        conn.personas := conn.personas[owner := card];
        out := Success(());
      }
      if out.Failure? { conn.Rollback(); } else { conn.Commit(); }
    }

    method Update(owner: Owner, text: CardText, now: Instant) returns (out: Option<Card>)
      requires conn.Valid() && conn.saved == None
      modifies conn
      ensures conn.Valid() && conn.saved == None
      ensures conn.Contents() == UpdatePersona(old(conn.Contents()), owner, text, now).After(old(conn.Contents()))
      ensures Success(out) == UpdatePersona(old(conn.Contents()), owner, text, now).Reply()
    {
      conn.Begin();
      if owner in conn.personas {
        conn.personas := conn.personas[owner := conn.personas[owner].(
          displayName := text.displayName, pronouns := text.pronouns, summary := text.summary, updatedAt := now)];
        out := Some(conn.personas[owner]);
      } else {
        out := None;
      }
      conn.Commit();
    }

    /** Remove a persona and everything it owns: the foreign keys cascade to its fields and
        notes, and the triggers to their index entries. */
    method Delete(owner: Owner) returns (removed: bool)
      requires conn.Valid() && conn.saved == None && events.conn == conn
      modifies conn
      ensures conn.Valid() && conn.saved == None
      ensures conn.Contents() == DeletePersona(old(conn.Contents()), owner).After(old(conn.Contents()))
      ensures Success(removed) == DeletePersona(old(conn.Contents()), owner).Reply()
    {
      DeleteKeepsSound(conn.Contents(), owner);
      conn.Begin();
      removed := owner in conn.personas;
      if removed {
        conn.personas := conn.personas - {owner};
        CascadeToFields(OwnedKeys(conn.fields, owner));
        CascadeToNotes(OwnedKeys(conn.notes, owner));
        events.StripPersonaValues(owner);
      }
      conn.Commit();
    }

    /** What ON DELETE CASCADE and the delete trigger do to one table and its index. */
    method CascadeToFields(ks: set<FieldKey>)
      modifies conn`fields, conn`fieldsFts
      ensures conn.Contents() == WithFields(old(conn.Contents()), Without(old(conn.Contents()).fields, ks))
    {
      conn.fieldsFts := conn.fieldsFts - Docids(conn.fields, ks);
      conn.fields := conn.fields - ks;
    }

    method CascadeToNotes(ks: set<string>)
      modifies conn`notes, conn`notesFts
      ensures conn.Contents() == WithNotes(old(conn.Contents()), Without(old(conn.Contents()).notes, ks))
    {
      conn.notesFts := conn.notesFts - Docids(conn.notes, ks);
      conn.notes := conn.notes - ks;
    }

    /** An event in a transaction of its own. */
    method Record(owner: Owner, action: Action, author: Author, at: Instant, ghost limits: Limits)
      requires conn.Valid() && conn.saved == None && events.conn == conn && events.maxEntries == limits.maxEntries
      modifies conn
      ensures conn.Valid() && conn.saved == None
      ensures conn.Contents()
              == RecordPersonaEvent(old(conn.Contents()), limits, owner, action, author, at)
                 .After(old(conn.Contents()))
    {
      conn.Begin();
      events.Append(Event(0, at, owner, action, owner.profile, Blank, author, None));
      conn.Commit();
    }
  }

  lemma DeleteKeepsSound(t: Tables, owner: Owner)
    requires Sound(t)
    ensures Sound(DeletePersona(t, owner).After(t))
  {
  }

  /** Destroys forgotten rows whose grace period has run out. */
  class Sweeper {
    const fields: FieldStore.FieldStore
    const notes: NoteStore.NoteStore
    const batch: int

    constructor (fields: FieldStore.FieldStore, notes: NoteStore.NoteStore, batch: int)
      ensures this.fields == fields && this.notes == notes && this.batch == batch
    {
      this.fields, this.notes, this.batch := fields, notes, batch;
    }

    /** One batch of fields and one of notes, each in a transaction; how many rows went. */
    method SweepOnce(now: Instant) returns (purged: nat, ghost fs: set<FieldKey>, ghost ns: set<string>)
      requires fields.Wired() && notes.Wired() && fields.conn == notes.conn
      requires fields.conn.Valid() && fields.conn.saved == None
      modifies fields.conn
      ensures fields.conn.Valid() && fields.conn.saved == None
      ensures OldestDue(old(fields.conn.Contents()).fields.rows, now, batch, fs)
      ensures OldestDue(old(fields.conn.Contents()).notes.rows, now, batch, ns)
      ensures fields.conn.Contents() == DestroyNotes(DestroyFields(old(fields.conn.Contents()), fs), ns)
      ensures purged == |fs| + |ns|
    {
      var goneFields, goneNotes;
      goneFields, fs := fields.PurgeDue(now, batch);
      purged := goneFields;
      goneNotes, ns := notes.PurgeDue(now, batch);
      purged := purged + goneNotes;
    }
  }

  // ---- the service --------------------------------------------------------------------------

  function NewCard(id: string, text: CardText, now: Instant): Card {
    Card(id, text.displayName, text.pronouns, text.summary, now, now)
  }

  /** The database once a change of card is in the log: a second transaction. */
  function Announced(t: Tables, limits: Limits, owner: Owner, action: Action, author: Author, at: Instant): Tables {
    RecordPersonaEvent(t, limits, owner, action, author, at).After(t)
  }

  function Created(u: Unicode, t: Tables, limits: Limits, owner: Owner, raw: CardText, id: string, author: Author,
                   now: Instant, at: Instant): (Tables, Result<Card, Error>)
  {
    var card := VetCard(u, raw);
    if card.Failure? then (t, Failure(card.error))
    else
      var added := AddPersona(t, owner, NewCard(id, card.value, now), limits.maxPersonas);
      if added.RolledBack? then (t, Failure(added.error))
      else (Announced(added.db, limits, owner, PersonaCreated, author, at), Success(NewCard(id, card.value, now)))
  }

  function Ensured(u: Unicode, t: Tables, limits: Limits, owner: Owner, id: string, author: Author, now: Instant,
                   at: Instant):
    (Tables, Result<Card, Error>)
  {
    if owner in t.personas then (t, Success(t.personas[owner]))
    else Created(u, t, limits, owner, CardText(None, None, None), id, author, now, at)
  }

  function Updated(u: Unicode, t: Tables, limits: Limits, owner: Owner, raw: CardText, author: Author, now: Instant,
                   at: Instant): (Tables, Result<Card, Error>)
  {
    var card := VetCard(u, raw);
    if card.Failure? then (t, Failure(card.error))
    else if owner !in t.personas then (t, Failure(PersonaNotFound))
    else
      var t' := UpdatePersona(t, owner, card.value, now).After(t);
      (Announced(t', limits, owner, PersonaUpdated, author, at), Success(t'.personas[owner]))
  }

  function Deleted(t: Tables, limits: Limits, owner: Owner, author: Author, at: Instant): (Tables, Result<(), Error>) {
    if owner !in t.personas then (t, Failure(PersonaNotFound))
    else (Announced(DeletePersona(t, owner).After(t), limits, owner, PersonaDeleted, author, at), Success(()))
  }

  datatype Exported = Exported(persona: Card, fields: Page, notes: Page)

  /** The rules about the card.  A change of card and its event are two transactions, one
      after the other, so a crash between them loses the event and never the change. */
  class PersonaService {
    const store: PersonaStore
    const fields: FieldStore.FieldStore
    const notes: NoteStore.NoteStore
    const limits: Limits
    const u: Unicode

    constructor (store: PersonaStore, fields: FieldStore.FieldStore, notes: NoteStore.NoteStore, limits: Limits,
                 u: Unicode)
      requires store.events.conn == store.conn && store.events.maxEntries == limits.maxEntries
      requires fields.conn == store.conn && notes.conn == store.conn
      ensures this.store == store && this.fields == fields && this.notes == notes && this.limits == limits
              && this.u == u
      ensures Wired()
    {
      this.store, this.fields, this.notes, this.limits, this.u := store, fields, notes, limits, u;
    }

    ghost predicate Wired() {
      && store.events.conn == store.conn && store.events.maxEntries == limits.maxEntries
      && fields.conn == store.conn && notes.conn == store.conn
    }

    method Create(owner: Owner, raw: CardText, personaId: string, author: Author, now: Instant, at: Instant)
        returns (out: Result<Card, Error>)
      requires Wired() && store.conn.Valid() && store.conn.saved == None
      modifies store.conn
      ensures store.conn.Valid() && store.conn.saved == None
      ensures (store.conn.Contents(), out)
                == Created(u, old(store.conn.Contents()), limits, owner, raw, personaId, author, now, at)
    {
      var card :- VetCard(u, raw);
      var persona := Card(personaId, card.displayName, card.pronouns, card.summary, now, now);
      var _ :- store.Add(owner, persona, limits.maxPersonas);
      store.Record(owner, PersonaCreated, author, at, limits);
      out := Success(persona);
    }

    /** The persona for a profile, created if there is none; reading never creates. */
    method Ensure(owner: Owner, personaId: string, author: Author, now: Instant, at: Instant)
        returns (out: Result<Card, Error>)
      requires Wired() && store.conn.Valid() && store.conn.saved == None
      modifies store.conn
      ensures store.conn.Valid() && store.conn.saved == None
      ensures (store.conn.Contents(), out)
                == Ensured(u, old(store.conn.Contents()), limits, owner, personaId, author, now, at)
    {
      if owner in store.conn.personas {
        return Success(store.conn.personas[owner]);
      }
      out := Create(owner, CardText(None, None, None), personaId, author, now, at);
    }

    method Update(owner: Owner, raw: CardText, author: Author, now: Instant, at: Instant)
        returns (out: Result<Card, Error>)
      requires Wired() && store.conn.Valid() && store.conn.saved == None
      modifies store.conn
      ensures store.conn.Valid() && store.conn.saved == None
      ensures (store.conn.Contents(), out)
                == Updated(u, old(store.conn.Contents()), limits, owner, raw, author, now, at)
    {
      var card :- VetCard(u, raw);
      var updated := store.Update(owner, card, now);
      if updated.None? {
        return Failure(PersonaNotFound);
      }
      store.Record(owner, PersonaUpdated, author, at, limits);
      out := Success(updated.value);
    }

    method Delete(owner: Owner, author: Author, at: Instant) returns (out: Result<(), Error>)
      requires Wired() && store.conn.Valid() && store.conn.saved == None
      modifies store.conn
      ensures store.conn.Valid() && store.conn.saved == None
      ensures (store.conn.Contents(), out) == Deleted(old(store.conn.Contents()), limits, owner, author, at)
    {
      var removed := store.Delete(owner);
      if !removed {
        return Failure(PersonaNotFound);
      }
      store.Record(owner, PersonaDeleted, author, at, limits);
      out := Success(());
    }

    /** The card with one page of fields and one of notes, each following its own cursor. */
    method Export(owner: Owner, limit: nat, fieldCursor: Option<Position>, noteCursor: Option<Position>,
                  includeForgotten: bool)
        returns (out: Result<Exported, Error>)
      requires Wired() && limit >= 1
      ensures owner !in store.conn.personas ==> out == Failure(PersonaNotFound)
      ensures owner in store.conn.personas ==> out.Success? && out.value.persona == store.conn.personas[owner]
      ensures owner in store.conn.personas ==>
        IsPage(FieldStore.FieldPositions(store.conn.fields, owner, FieldStore.AllFields(includeForgotten)),
               fieldCursor, limit, out.value.fields)
      ensures owner in store.conn.personas ==>
        IsPage(NoteStore.NotePositions(store.conn.notes, owner, NoteStore.AllNotes(includeForgotten)), noteCursor,
               limit, out.value.notes)
    {
      if owner !in store.conn.personas {
        return Failure(PersonaNotFound);
      }
      var fieldPage := fields.ListForPersona(owner, FieldStore.NoFieldFilters(includeForgotten), limit, fieldCursor);
      var notePage := notes.ListForPersona(owner, NoteStore.AllNotes(includeForgotten), limit, noteCursor);
      out := Success(Exported(store.conn.personas[owner], fieldPage.value, notePage));
    }
  }
}
