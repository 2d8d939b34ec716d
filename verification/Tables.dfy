/** The rows of the database, and what one SQL statement does to them.

    A table and its full-text index are one `Shelf`: the rows by primary key, the
    indexed text by docid, and the docid counter.  Fields and notes have the same shape,
    so what is said about a shelf is said once for both.
 */
module Tables {
  import opened Wrappers

  /** Microseconds since the start of year 1, UTC. */
  type Instant = int

  datatype Owner = Owner(account: string, profile: string)

  datatype Source = OwnerSaid | AssistantSaid | ServiceSaid

  /** Who is said to have asserted something, and the audience of the token that did. */
  datatype Author = Author(source: Source, assertedBy: string)

  datatype ValueType = StringType | NumberType | BooleanType | NullType | ListType | ObjectType

  datatype NoteKind = Episode | Observation | Lesson

  datatype Card = Card(personaId: string, displayName: Option<string>, pronouns: Option<string>,
                       summary: Option<string>, createdAt: Instant, updatedAt: Instant)

  datatype FieldKey = FieldKey(owner: Owner, key: string)

  datatype FieldContent = FieldContent(fieldId: string, description: string, valueJson: string, valueType: ValueType)

  datatype NoteContent = NoteContent(body: string, kind: NoteKind)

  /** The columns fields and notes share; `subject` is the field key or the note id. */
  datatype Row<C> = Row(owner: Owner, subject: string, docid: nat, content: C, author: Author, pinned: bool,
                        revision: nat, createdAt: Instant, updatedAt: Instant,
                        forgottenAt: Option<Instant>, purgeAfter: Option<Instant>)
  {
    predicate Live() {
      forgottenAt.None?
    }

    predicate PastDue(now: Instant) {
      purgeAfter.Some? && purgeAfter.value <= now
    }

    function Forgotten(now: Instant, due: Option<Instant>): Row<C> {
      this.(forgottenAt := Some(now), updatedAt := now, purgeAfter := due)
    }
  }

  type FieldRow = Row<FieldContent>
  type NoteRow = Row<NoteContent>

  datatype Shelf<K(==), C> = Shelf(rows: map<K, Row<C>>, index: map<nat, string>, next: nat)

  type FieldShelf = Shelf<FieldKey, FieldContent>
  type NoteShelf = Shelf<string, NoteContent>

  function Docids<K, C>(rows: map<K, Row<C>>, ks: set<K>): set<nat> {
    set k | k in ks && k in rows :: rows[k].docid
  }

  /** INSERT under a new docid, with the text it is found by. */
  function Inserted<K, C>(s: Shelf<K, C>, k: K, row: Row<C>, text: string): Shelf<K, C> {
    Shelf(s.rows[k := row.(docid := s.next + 1)], s.index[s.next + 1 := text], s.next + 1)
  }

  /** UPDATE a row and replace the text it is found by. */
  function Rewritten<K, C>(s: Shelf<K, C>, k: K, row: Row<C>, text: string): Shelf<K, C> {
    Shelf(s.rows[k := row], s.index[row.docid := text], s.next)
  }

  /** UPDATE a row and take it out of the index. */
  function Hidden<K, C>(s: Shelf<K, C>, k: K, row: Row<C>): Shelf<K, C> {
    Shelf(s.rows[k := row], s.index - {row.docid}, s.next)
  }

  /** DELETE rows; the trigger takes their index entries with them. */
  function Without<K, C>(s: Shelf<K, C>, ks: set<K>): Shelf<K, C> {
    Shelf(s.rows - ks, s.index - Docids(s.rows, ks), s.next)
  }

  function ToSet<T>(s: seq<T>): set<T> {
    set x | x in s
  }

  function OwnedKeys<K, C>(rows: map<K, Row<C>>, owner: Owner): set<K> {
    set k | k in rows && rows[k].owner == owner
  }

  function LiveKeys<K, C>(rows: map<K, Row<C>>, owner: Owner): set<K> {
    set k | k in rows && rows[k].owner == owner && rows[k].Live()
  }

  function PinnedKeys<K, C>(rows: map<K, Row<C>>, owner: Owner): set<K> {
    set k | k in rows && rows[k].owner == owner && rows[k].Live() && rows[k].pinned
  }

  function DueKeys<K, C>(rows: map<K, Row<C>>, now: Instant): set<K> {
    set k | k in rows && rows[k].PastDue(now)
  }

  datatype Error =
    | InvalidFieldKey | InvalidFieldValue(limit: ValueLimit) | InvalidNote | InvalidProfile
    | CredentialRefused | FieldNotFound | NoteNotFound | PersonaNotFound | PersonaExists
    | LimitExceeded(cap: Cap) | ConstraintFailed | InstantOutOfRange

  datatype ValueLimit = DepthLimit | ListItemsLimit | ObjectKeysLimit | BytesLimit | TypeLimit

  datatype Cap = RowsCap | PinnedCap | PersonasCap

  /** The cap check both stores run inside the writing transaction. */
  function CapError<K, C>(rows: map<K, Row<C>>, owner: Owner, adding: bool, addingPinned: bool, maxRows: int,
                          maxPinned: int): Option<Error>
  {
    if adding && |LiveKeys(rows, owner)| >= maxRows then Some(LimitExceeded(RowsCap))
    else if addingPinned && |PinnedKeys(rows, owner)| >= maxPinned then Some(LimitExceeded(PinnedCap))
    else None
  }

  // ---- the event log -----------------------------------------------------------------

  datatype Noun = PersonaNoun | FieldNoun | NoteNoun

  datatype Action =
    | PersonaCreated | PersonaUpdated | PersonaDeleted
    | FieldSet | FieldRevised | FieldForgotten
    | NoteWritten | NoteRevised | NoteForgotten
  {
    /** What `action LIKE '<noun>.%'` matches. */
    function Noun(): Noun {
      match this
      case PersonaCreated | PersonaUpdated | PersonaDeleted => PersonaNoun
      case FieldSet | FieldRevised | FieldForgotten => FieldNoun
      case NoteWritten | NoteRevised | NoteForgotten => NoteNoun
    }
  }

  /** The human-readable part of an event.  By its type it cannot hold a value or a body. */
  datatype Detail = Blank | SetAs(valueType: ValueType) | RevisionNumber(n: nat) | OfKind(kind: NoteKind)
                  | Erased | ErasedAfter(due: Instant)

  datatype Event = Event(sequence: nat, at: Instant, owner: Owner, action: Action, subject: string,
                         detail: Detail, author: Author, oldValue: Option<string>)

  /** The stored events, oldest first, and the highest sequence AUTOINCREMENT has handed out. */
  datatype Log = Log(events: seq<Event>, last: nat)

  /** What one UPDATE ... SET old_value = NULL reaches. */
  datatype Scope = AboutRow(owner: Owner, noun: Noun, subject: string) | AboutPersona(owner: Owner)

  predicate Covers(scope: Scope, e: Event) {
    match scope
    case AboutRow(owner, noun, subject) => e.owner == owner && e.action.Noun() == noun && e.subject == subject
    case AboutPersona(owner) => e.owner == owner
  }

  predicate Covered(scopes: set<Scope>, e: Event) {
    exists s :: s in scopes && Covers(s, e)
  }

  function StruckEvent(e: Event, scopes: set<Scope>): Event {
    if Covered(scopes, e) then e.(oldValue := None) else e
  }

  function Struck(events: seq<Event>, scopes: set<Scope>): (r: seq<Event>)
    ensures |r| == |events|
    ensures forall i :: 0 <= i < |events| ==> r[i] == StruckEvent(events[i], scopes)
  {
    seq(|events|, i requires 0 <= i < |events| => StruckEvent(events[i], scopes))
  }

  /** The events a DELETE ... WHERE sequence <= bound leaves. */
  function Above(events: seq<Event>, bound: int): seq<Event> {
    if events == [] then []
    else (if events[0].sequence > bound then [events[0]] else []) + Above(events[1..], bound)
  }

  /** INSERT, then the trim against the sequence just used. */
  function Appended(log: Log, maxEntries: int, e: Event): Log {
    var sequence := log.last + 1;
    Log(Above(log.events + [e.(sequence := sequence)], sequence - maxEntries), sequence)
  }

  function Scopes<K, C>(rows: map<K, Row<C>>, noun: Noun, ks: set<K>): set<Scope> {
    set k | k in ks && k in rows :: AboutRow(rows[k].owner, noun, rows[k].subject)
  }

  /** The whole database. */
  datatype Tables = Tables(personas: map<Owner, Card>, fields: FieldShelf, notes: NoteShelf, log: Log)

  const EMPTY := Tables(map[], Shelf(map[], map[], 0), Shelf(map[], map[], 0), Log([], 0))

  /** What a deployment configures. */
  datatype Limits = Limits(maxPersonas: int, maxFields: int, maxPinnedFields: int,
                           maxNotes: int, maxPinnedNotes: int, maxEntries: int)

  /** The readings a transaction takes from outside: the clock when the operation began,
      the clock when the event was written, and the id minted for a new row. */
  datatype Outside = Outside(now: Instant, at: Instant, freshId: string)

  /** An event together with the docid of the row it is about, which the log does not keep.
      The docid names the row's incarnation: a key written again after its row was destroyed
      is a different row. */
  datatype Record = Record(event: Event, docid: nat)

  datatype LogOp = Say(record: Record) | Strike(scopes: set<Scope>)

  /** One transaction: committed with what it returned and did to the log, or rolled back. */
  datatype Outcome<R> = Committed(db: Tables, result: R, ops: seq<LogOp>) | RolledBack(error: Error)
  {
    function After(before: Tables): Tables {
      match this
      case Committed(db, _, _) => db
      case RolledBack(_) => before
    }

    function Reply(): Result<R, Error> {
      match this
      case Committed(_, result, _) => Success(result)
      case RolledBack(error) => Failure(error)
    }

    function LogOps(): seq<LogOp> {
      match this
      case Committed(_, _, ops) => ops
      case RolledBack(_) => []
    }
  }
}
