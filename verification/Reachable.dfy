/** What is true in every state a run can reach. */
module Reachable {
  import opened Wrappers
  import opened Text
  import opened Sets
  import opened Tables
  import opened Storage
  import opened Transactions
  import opened Books
  import opened EventLog
  import opened Vetting
  import opened Machine
  import opened Projection
  import opened Query
  import opened Search
  import opened Json
  import opened Secrets
  import opened Shapes

  // ---- the parts of `Good` that are not about one book --------------------------------------

  lemma SetFieldOnlyTouches(t: Tables, limits: Limits, r: SetRequest, o: Outside)
    requires Named(t)
    ensures var t' := SetField(t, limits, r, o).After(t);
            var k := FieldKey(r.owner, r.write.key);
            && t'.notes == t.notes && t'.personas == t.personas
            && (forall j :: j != k ==> (j in t'.fields.rows <==> j in t.fields.rows))
            && (forall j :: j != k && j in t.fields.rows ==> t'.fields.rows[j] == t.fields.rows[j])
            && (k in t'.fields.rows ==> t'.fields.rows[k].owner == k.owner && t'.fields.rows[k].subject == k.key)
            && (k in t'.fields.rows && k !in t.fields.rows ==> r.owner in t.personas)
  {
  }

  lemma ForgetFieldOnlyTouches(t: Tables, limits: Limits, r: ForgetRequest, o: Outside)
    requires Named(t)
    ensures var t' := ForgetField(t, limits, r, o).After(t);
            var k := FieldKey(r.owner, r.subject);
            && t'.notes == t.notes && t'.personas == t.personas
            && (forall j :: j in t'.fields.rows ==> j in t.fields.rows)
            && (forall j ::
                j != k && j in t.fields.rows ==> j in t'.fields.rows && t'.fields.rows[j] == t.fields.rows[j])
            && (k in t'.fields.rows ==> t'.fields.rows[k].owner == k.owner && t'.fields.rows[k].subject == k.key)
  {
  }

  /** Note transactions touch one note and leave its owner alone. */
  ghost predicate OnlyNoteTouched(t: Tables, t': Tables, k: string) {
    && t'.fields == t.fields && t'.personas == t.personas
    && (forall j :: j != k && j in t'.notes.rows ==> j in t.notes.rows && t'.notes.rows[j] == t.notes.rows[j])
    && (k in t'.notes.rows ==> t'.notes.rows[k].subject == k)
    && (k in t'.notes.rows ==>
        t'.notes.rows[k].owner in if k in t.notes.rows then {t.notes.rows[k].owner} else t.personas.Keys)
  }

  lemma WriteNoteOnlyTouches(t: Tables, limits: Limits, r: WriteRequest, o: Outside)
    requires Named(t)
    ensures OnlyNoteTouched(t, WriteNote(t, limits, r, o).After(t), o.freshId)
  {
  }

  lemma ReviseNoteOnlyTouches(t: Tables, limits: Limits, r: ReviseRequest, o: Outside)
    requires Named(t)
    ensures OnlyNoteTouched(t, ReviseNote(t, limits, r, o).After(t), r.noteId)
  {
  }

  lemma ForgetNoteOnlyTouches(t: Tables, limits: Limits, r: ForgetRequest, o: Outside)
    requires Named(t)
    ensures OnlyNoteTouched(t, ForgetNote(t, limits, r, o).After(t), r.subject)
  {
  }

  lemma NamesKept(u: Unicode, t: Tables, limits: Limits, c: Command)
    requires Named(t) && Possible(u, t, c)
    ensures Named(Apply(t, limits, c))
  {
    match c
    case SetFieldCmd(r, o) => SetFieldOnlyTouches(t, limits, r, o);
    case ForgetFieldCmd(r, o) => ForgetFieldOnlyTouches(t, limits, r, o);
    case WriteNoteCmd(r, o) => WriteNoteOnlyTouches(t, limits, r, o);
    case ReviseNoteCmd(r, o) => ReviseNoteOnlyTouches(t, limits, r, o);
    case ForgetNoteCmd(r, o) => ForgetNoteOnlyTouches(t, limits, r, o);
    case _ =>
  }

  lemma PersonasKept(u: Unicode, t: Tables, limits: Limits, c: Command)
    requires Named(t) && PersonasInOrder(u, t) && Possible(u, t, c)
    ensures PersonasInOrder(u, Apply(t, limits, c))
  {
    match c
    case SetFieldCmd(_, _) => FieldWritesKeepPersonas(u, t, limits, c);
    case ForgetFieldCmd(_, _) => FieldWritesKeepPersonas(u, t, limits, c);
    case WriteNoteCmd(r, o) => WriteNoteOnlyTouches(t, limits, r, o);
    case ReviseNoteCmd(r, o) => ReviseNoteOnlyTouches(t, limits, r, o);
    case ForgetNoteCmd(r, o) => ForgetNoteOnlyTouches(t, limits, r, o);
    case _ => OthersKeepPersonas(u, t, limits, c);
  }

  lemma FieldWritesKeepPersonas(u: Unicode, t: Tables, limits: Limits, c: Command)
    requires Named(t) && PersonasInOrder(u, t) && (c.SetFieldCmd? || c.ForgetFieldCmd?)
    ensures PersonasInOrder(u, Apply(t, limits, c))
  {
    match c
    case SetFieldCmd(r, o) => SetFieldOnlyTouches(t, limits, r, o);
    case ForgetFieldCmd(r, o) => ForgetFieldOnlyTouches(t, limits, r, o);
  }

  lemma OthersKeepPersonas(u: Unicode, t: Tables, limits: Limits, c: Command)
    requires PersonasInOrder(u, t) && Possible(u, t, c)
    requires c.PurgeFieldsCmd? || c.PurgeNotesCmd? || c.AddPersonaCmd? || c.UpdatePersonaCmd? || c.DeletePersonaCmd?
             || c.RecordCmd?
    ensures PersonasInOrder(u, Apply(t, limits, c))
  {
  }

  lemma LogReplayed(t: Tables, limits: Limits, c: Command)
    ensures Apply(t, limits, c).log == Replay(t.log, limits.maxEntries, Ops(t, limits, c))
  {
    if c.SetFieldCmd? || c.ForgetFieldCmd? {
      FieldLogReplayed(t, limits, c);
    } else {
      ReplayFew(t.log, limits.maxEntries, Ops(t, limits, c));
    }
  }

  lemma FieldLogReplayed(t: Tables, limits: Limits, c: Command)
    requires c.SetFieldCmd? || c.ForgetFieldCmd?
    ensures Apply(t, limits, c).log == Replay(t.log, limits.maxEntries, Ops(t, limits, c))
  {
    ReplayFew(t.log, limits.maxEntries, Ops(t, limits, c));
  }

  /** One operation on the log. */
  function Replayed(log: Log, maxEntries: int, op: LogOp): Log {
    if op.Say? then Appended(log, maxEntries, op.record.event) else Log(Struck(log.events, op.scopes), log.last)
  }

  /** No transaction says more than two things to the log. */
  lemma ReplayFew(log: Log, maxEntries: int, ops: seq<LogOp>)
    ensures ops == [] ==> Replay(log, maxEntries, ops) == log
    ensures |ops| == 1 ==> Replay(log, maxEntries, ops) == Replayed(log, maxEntries, ops[0])
    ensures |ops| == 2 ==>
              Replay(log, maxEntries, ops) == Replayed(Replayed(log, maxEntries, ops[0]), maxEntries, ops[1])
  {
    if |ops| == 1 {
      ReplayOne(log, maxEntries, ops[0]);
      assert ops == [ops[0]];
    } else if |ops| == 2 {
      ReplayTwo(log, maxEntries, ops[0], ops[1]);
      assert ops == [ops[0], ops[1]];
    }
  }

  lemma ReplayOne(log: Log, maxEntries: int, op: LogOp)
    ensures Replay(log, maxEntries, [op]) == Replayed(log, maxEntries, op)
  {
    assert [op][1..] == [];
  }

  lemma ReplayTwo(log: Log, maxEntries: int, a: LogOp, b: LogOp)
    ensures Replay(log, maxEntries, [a, b]) == Replayed(Replayed(log, maxEntries, a), maxEntries, b)
  {
    assert [a, b][1..] == [b];
    ReplayOne(Replayed(log, maxEntries, a), maxEntries, b);
  }

  /** No transaction puts a value into an event about a persona. */
  lemma SaysNoCard(t: Tables, limits: Limits, c: Command)
    ensures forall i :: 0 <= i < |Ops(t, limits, c)| ==> SpeaksOfNoCard(Ops(t, limits, c)[i])
  {
  }

  lemma GoodKept(u: Unicode, w: World, limits: Limits, c: Command)
    requires Good(u, w, limits) && Possible(u, w.db, c)
    ensures Good(u, Next(w, limits, c), limits)
  {
    BooksKept(u, w, limits, c);
    NamesKept(u, w.db, limits, c);
    PersonasKept(u, w.db, limits, c);
    LogReplayed(w.db, limits, c);
    ReplayKeepsStored(w.db.log, w.full, limits.maxEntries, Ops(w.db, limits, c));
    SaysNoCard(w.db, limits, c);
    OpsKeepPersonaEvents(w.full, Ops(w.db, limits, c));
  }

  /** Every state of every run is good. */
  lemma {:induction false} RunIsGood(u: Unicode, w: World, limits: Limits, cs: seq<Command>)
    requires Good(u, w, limits) && PossibleRun(u, w, limits, cs)
    ensures Good(u, Run(w, limits, cs), limits)
    decreases |cs|
  {
    if cs != [] {
      GoodKept(u, w, limits, cs[0]);
      RunIsGood(u, Next(w, limits, cs[0]), limits, cs[1..]);
    }
  }

  /** A set of worlds that holds the first one and that no possible command leads out of. */
  ghost predicate Closed(u: Unicode, limits: Limits, worlds: iset<World>) {
    && INITIAL in worlds
    && forall w, c :: w in worlds && Possible(u, w.db, c) ==> Next(w, limits, c) in worlds
  }

  /** A state the service can get to: one that is in every such set. */
  ghost predicate IsReachable(u: Unicode, w: World, limits: Limits) {
    forall worlds: iset<World> :: Closed(u, limits, worlds) ==> w in worlds
  }

  lemma {:induction false} RunStaysIn(u: Unicode, w: World, limits: Limits, cs: seq<Command>, worlds: iset<World>)
    requires Closed(u, limits, worlds) && w in worlds && PossibleRun(u, w, limits, cs)
    ensures Run(w, limits, cs) in worlds
    decreases |cs|
  {
    if cs != [] {
      RunStaysIn(u, Next(w, limits, cs[0]), limits, cs[1..], worlds);
    }
  }

  lemma {:induction false} OneMoreCommand(u: Unicode, w: World, limits: Limits, cs: seq<Command>, c: Command)
    requires PossibleRun(u, w, limits, cs) && Possible(u, Run(w, limits, cs).db, c)
    ensures PossibleRun(u, w, limits, cs + [c]) && Run(w, limits, cs + [c]) == Next(Run(w, limits, cs), limits, c)
    decreases |cs|
  {
    if cs == [] {
      assert cs + [c] == [c] && [c][1..] == [];
    } else {
      OneMoreCommand(u, Next(w, limits, cs[0]), limits, cs[1..], c);
      assert (cs + [c])[0] == cs[0] && (cs + [c])[1..] == cs[1..] + [c];
    }
  }

  ghost predicate EndsIn(u: Unicode, limits: Limits, cs: seq<Command>, w: World) {
    PossibleRun(u, INITIAL, limits, cs) && w == Run(INITIAL, limits, cs)
  }

  ghost predicate SomeRunEndsIn(u: Unicode, w: World, limits: Limits) {
    exists cs :: EndsIn(u, limits, cs, w)
  }

  /** Those are exactly the states some run from the empty store ends in. */
  lemma ReachableByRuns(u: Unicode, w: World, limits: Limits)
    ensures IsReachable(u, w, limits) <==> SomeRunEndsIn(u, w, limits)
  {
    if SomeRunEndsIn(u, w, limits) {
      var cs :| EndsIn(u, limits, cs, w);
      forall worlds: iset<World> | Closed(u, limits, worlds) ensures w in worlds {
        RunStaysIn(u, INITIAL, limits, cs, worlds);
      }
    }
    if IsReachable(u, w, limits) {
      var ends := iset v: World | SomeRunEndsIn(u, v, limits);
      assert EndsIn(u, limits, [], INITIAL);
      forall v, c | v in ends && Possible(u, v.db, c) ensures Next(v, limits, c) in ends {
        var cs :| EndsIn(u, limits, cs, v);
        OneMoreCommand(u, INITIAL, limits, cs, c);
        assert EndsIn(u, limits, cs + [c], Next(v, limits, c));
      }
      assert Closed(u, limits, ends);
    }
  }

  lemma ReachableIsGood(u: Unicode, w: World, limits: Limits)
    requires IsReachable(u, w, limits)
    ensures Good(u, w, limits)
  {
    var good := iset v: World | Good(u, v, limits);
    StartIsGood(u, limits);
    forall v, c | v in good && Possible(u, v.db, c) ensures Next(v, limits, c) in good {
      GoodKept(u, v, limits, c);
    }
    assert Closed(u, limits, good);
  }

  // ---- search finds what is there ---------------------------------------------------------

  /** The fields a scan of the account's live rows would find, looking at nothing but each
      row's own key, description and value. */
  ghost function ScanFields(u: Unicode, t: Tables, raw: string, account: string,
                            profile: Option<string>): set<FieldKey> {
    set k | k in t.fields.rows && InScope(t.fields.rows[k], account, profile)
      && FieldHolds(u, k.key, t.fields.rows[k].content, raw)
  }

  ghost predicate FieldHolds(u: Unicode, key: string, c: FieldContent, raw: string) {
    Loads(c.valueJson).Some? && HoldsSomeWord(u, raw, Bag(u, FieldText(key, c.description, Loads(c.valueJson).value)))
  }

  ghost function ScanNotes(u: Unicode, t: Tables, raw: string, account: string, profile: Option<string>): set<string> {
    set k | k in t.notes.rows && InScope(t.notes.rows[k], account, profile)
            && HoldsSomeWord(u, raw, Bag(u, t.notes.rows[k].content.body))
  }

  /** In every reachable state the index answers exactly as a scan of the live rows would. */
  lemma SearchIsScan(u: Unicode, w: World, limits: Limits, raw: string, account: string, profile: Option<string>)
    requires u.Facts() && IsReachable(u, w, limits) && MatchQuery(u, raw).Success?
    ensures Hits(u, w.db.fields, MatchQuery(u, raw).value, account, profile)
              == ScanFields(u, w.db, raw, account, profile)
  {
    ReachableIsGood(u, w, limits);
    forall k | k in w.db.fields.rows && InScope(w.db.fields.rows[k], account, profile)
      ensures w.db.fields.rows[k].docid in w.db.fields.index
      ensures MatchesDocument(u, MatchQuery(u, raw).value, w.db.fields.index[w.db.fields.rows[k].docid])
              <==> FieldHolds(u, k.key, w.db.fields.rows[k].content, raw)
    {
      FieldIsFound(u, w, k, raw);
    }
  }

  lemma NoteSearchIsScan(u: Unicode, w: World, limits: Limits, raw: string, account: string, profile: Option<string>)
    requires u.Facts() && IsReachable(u, w, limits) && MatchQuery(u, raw).Success?
    ensures Hits(u, w.db.notes, MatchQuery(u, raw).value, account, profile) == ScanNotes(u, w.db, raw, account, profile)
  {
    ReachableIsGood(u, w, limits);
    forall k | k in w.db.notes.rows && InScope(w.db.notes.rows[k], account, profile)
      ensures w.db.notes.rows[k].docid in w.db.notes.index
      ensures MatchesDocument(u, MatchQuery(u, raw).value, w.db.notes.index[w.db.notes.rows[k].docid])
              <==> HoldsSomeWord(u, raw, Bag(u, w.db.notes.rows[k].content.body))
    {
      NoteIsFound(u, w, k, raw);
    }
  }

  lemma FieldIsFound(u: Unicode, w: World, k: FieldKey, raw: string)
    requires u.Facts() && BothKept(u, w) && Named(w.db) && MatchQuery(u, raw).Success?
    requires k in w.db.fields.rows && w.db.fields.rows[k].Live()
    ensures w.db.fields.rows[k].docid in w.db.fields.index
    ensures MatchesDocument(u, MatchQuery(u, raw).value, w.db.fields.index[w.db.fields.rows[k].docid])
            <==> FieldHolds(u, k.key, w.db.fields.rows[k].content, raw)
  {
    var row := w.db.fields.rows[k];
    assert row.docid in w.db.fields.index;
    assert FieldKind(u).found(row.subject, row.content, w.db.fields.index[row.docid]);
    ExpressionFindsWords(u, raw, w.db.fields.index[row.docid]);
  }

  lemma NoteIsFound(u: Unicode, w: World, k: string, raw: string)
    requires u.Facts() && BothKept(u, w) && MatchQuery(u, raw).Success?
    requires k in w.db.notes.rows && w.db.notes.rows[k].Live()
    ensures w.db.notes.rows[k].docid in w.db.notes.index
    ensures MatchesDocument(u, MatchQuery(u, raw).value, w.db.notes.index[w.db.notes.rows[k].docid])
            <==> HoldsSomeWord(u, raw, Bag(u, w.db.notes.rows[k].content.body))
  {
    var row := w.db.notes.rows[k];
    assert row.docid in w.db.notes.index;
    assert NoteKindOf(u).found(row.subject, row.content, w.db.notes.index[row.docid]);
    ExpressionFindsWords(u, raw, w.db.notes.index[row.docid]);
  }

  /** The index entries are the live rows', one each. */
  lemma OneEntryPerLiveRow(u: Unicode, w: World, limits: Limits, docid: nat)
    requires IsReachable(u, w, limits)
    ensures docid in w.db.fields.index <==>
              exists k :: k in w.db.fields.rows && w.db.fields.rows[k].docid == docid && w.db.fields.rows[k].Live()
    ensures docid in w.db.notes.index <==>
              exists k :: k in w.db.notes.rows && w.db.notes.rows[k].docid == docid && w.db.notes.rows[k].Live()
    ensures forall j, k | j in w.db.fields.rows && k in w.db.fields.rows ::
              w.db.fields.rows[j].docid == w.db.fields.rows[k].docid ==> j == k
    ensures forall j, k | j in w.db.notes.rows && k in w.db.notes.rows ::
              w.db.notes.rows[j].docid == w.db.notes.rows[k].docid ==> j == k
  {
    ReachableIsGood(u, w, limits);
    EntriesAreLive(w.db.fields, docid);
    EntriesAreLive(w.db.notes, docid);
  }

  /** What stands in the index under a live row's docid has the row's own words, as often as the
      row has them: those of its key, description and decoded value, or of its body. */
  lemma IndexSaysWhatRowsSay(u: Unicode, w: World, limits: Limits)
    requires IsReachable(u, w, limits)
    ensures forall k :: k in w.db.fields.rows && w.db.fields.rows[k].Live() ==>
              IndexedAs(u, w.db.fields, k, w.db.fields.rows[k].content)
    ensures forall k :: k in w.db.notes.rows && w.db.notes.rows[k].Live() ==>
              w.db.notes.rows[k].docid in w.db.notes.index
              && w.db.notes.index[w.db.notes.rows[k].docid] == w.db.notes.rows[k].content.body
  {
    ReachableIsGood(u, w, limits);
    forall k | k in w.db.fields.rows && w.db.fields.rows[k].Live()
      ensures IndexedAs(u, w.db.fields, k, w.db.fields.rows[k].content)
    {
      var row := w.db.fields.rows[k];
      assert row.docid in w.db.fields.index;
      assert FieldKind(u).found(row.subject, row.content, w.db.fields.index[row.docid]);
    }
    forall k | k in w.db.notes.rows && w.db.notes.rows[k].Live()
      ensures w.db.notes.rows[k].docid in w.db.notes.index
      ensures w.db.notes.index[w.db.notes.rows[k].docid] == w.db.notes.rows[k].content.body
    {
      var row := w.db.notes.rows[k];
      assert row.docid in w.db.notes.index;
      assert NoteKindOf(u).found(row.subject, row.content, w.db.notes.index[row.docid]);
    }
  }

  ghost predicate IndexedAs(u: Unicode, s: FieldShelf, k: FieldKey, c: FieldContent)
    requires k in s.rows
  {
    && s.rows[k].docid in s.index && Loads(c.valueJson).Some?
    && Bag(u, s.index[s.rows[k].docid]) == Bag(u, FieldText(k.key, c.description, Loads(c.valueJson).value))
  }

  lemma AllHits<K(!new)>(hits: set<K>, rank: K -> real, limit: int, found: seq<K>)
    requires Answers(hits, rank, limit, found) && (limit < 0 || limit >= |hits|)
    ensures ToSet(found) == hits
  {
    SubsetOfSameSize(ToSet(found), hits);
  }

  /** So a search with room for them returns exactly the rows the scan finds, and with less room
      some of them, as many as there is room for. */
  lemma SearchFindsWhatIsThere(u: Unicode, w: World, limits: Limits, raw: string, account: string,
                               profile: Option<string>, rank: FieldKey -> real, limit: nat,
                               found: seq<FieldKey>)
    requires u.Facts() && IsReachable(u, w, limits) && MatchQuery(u, raw).Success?
    requires Answers(Hits(u, w.db.fields, MatchQuery(u, raw).value, account, profile), rank, limit, found)
    ensures Answers(ScanFields(u, w.db, raw, account, profile), rank, limit, found)
    ensures limit >= |ScanFields(u, w.db, raw, account, profile)| ==>
              ToSet(found) == ScanFields(u, w.db, raw, account, profile)
  {
    SearchIsScan(u, w, limits, raw, account, profile);
    if limit >= |ScanFields(u, w.db, raw, account, profile)| {
      AllHits(ScanFields(u, w.db, raw, account, profile), rank, limit, found);
    }
  }

  lemma NoteSearchFindsWhatIsThere(u: Unicode, w: World, limits: Limits, raw: string, account: string,
                                   profile: Option<string>, rank: string -> real, limit: nat,
                                   found: seq<string>)
    requires u.Facts() && IsReachable(u, w, limits) && MatchQuery(u, raw).Success?
    requires Answers(Hits(u, w.db.notes, MatchQuery(u, raw).value, account, profile), rank, limit, found)
    ensures Answers(ScanNotes(u, w.db, raw, account, profile), rank, limit, found)
    ensures limit >= |ScanNotes(u, w.db, raw, account, profile)| ==>
              ToSet(found) == ScanNotes(u, w.db, raw, account, profile)
  {
    NoteSearchIsScan(u, w, limits, raw, account, profile);
    if limit >= |ScanNotes(u, w.db, raw, account, profile)| {
      AllHits(ScanNotes(u, w.db, raw, account, profile), rank, limit, found);
    }
  }

  lemma EntriesAreLive<K(!new), C>(s: Shelf<K, C>, docid: nat)
    requires DocidsApart(s) && IndexesLiveRows(s)
    ensures docid in s.index <==> exists k :: k in s.rows && s.rows[k].docid == docid && s.rows[k].Live()
  {
  }

  // ---- the log leaves no copy behind --------------------------------------------------------

  /** Every value the stored log still holds is about a field or a note, and is a copy from one
      that is still in its table, in the same incarnation it was copied from: the docid the event was written
      about is the docid of the row. */
  lemma LoggedValuesHaveRows(u: Unicode, w: World, limits: Limits, e: Event)
    requires IsReachable(u, w, limits) && e in w.db.log.events && e.oldValue.Some?
    ensures 1 <= e.sequence <= |w.hist| && w.hist[e.sequence - 1].event.sequence == e.sequence
    ensures var docid := w.hist[e.sequence - 1].docid;
            match e.action.Noun()
            case FieldNoun => FieldKey(e.owner, e.subject) in w.db.fields.rows
                              && w.db.fields.rows[FieldKey(e.owner, e.subject)].docid == docid
            case NoteNoun => e.subject in w.db.notes.rows && w.db.notes.rows[e.subject].docid == docid
                             && w.db.notes.rows[e.subject].owner == e.owner
            case PersonaNoun => false
  {
    ReachableIsGood(u, w, limits);
    StoredBySequence(w.db.log, w.full, limits.maxEntries, e);
    var i :| 0 <= i < |w.full| && w.full[i] == e;
    assert w.full[i].sequence == i + 1;
    if e.action.Noun() == FieldNoun {
      ValueHasItsRow(w.db.fields, FieldNoun, w.full, w.hist, i);
    } else if e.action.Noun() == NoteNoun {
      ValueHasItsRow(w.db.notes, NoteNoun, w.full, w.hist, i);
    }
  }

  /** Whether the row with a docid is still in its table. */
  ghost predicate RowIsThere(t: Tables, noun: Noun, docid: nat) {
    match noun
    case FieldNoun => exists k :: k in t.fields.rows && t.fields.rows[k].docid == docid
    case NoteNoun => exists k :: k in t.notes.rows && t.notes.rows[k].docid == docid
    case PersonaNoun => false
  }

  /** What the stored log says is exactly what was written, less the values whose rows are gone:
      a value is stripped when its row is destroyed, and for no other reason. */
  lemma ValuesLiveAsLongAsRows(u: Unicode, w: World, limits: Limits, e: Event)
    requires IsReachable(u, w, limits) && e in w.db.log.events
    ensures 1 <= e.sequence <= |w.hist|
    ensures var was := w.hist[e.sequence - 1];
            e == if RowIsThere(w.db, was.event.action.Noun(), was.docid) then was.event
                 else was.event.(oldValue := None)
  {
    ReachableIsGood(u, w, limits);
    StoredBySequence(w.db.log, w.full, limits.maxEntries, e);
    var i :| 0 <= i < |w.full| && w.full[i] == e;
    assert w.full[i].sequence == i + 1;
    match w.hist[i].event.action.Noun()
    case FieldNoun => ValueLivesWithRow(w.db.fields, FieldNoun, w.full, w.hist, i);
    case NoteNoun => ValueLivesWithRow(w.db.notes, NoteNoun, w.full, w.hist, i);
    case PersonaNoun => AsWritten(w.full, w.hist, i);
  }

  lemma ValueLivesWithRow<K(!new), C>(s: Shelf<K, C>, noun: Noun, full: seq<Event>, hist: seq<Record>, i: nat)
    requires SameEvents(full, hist) && ValuesHaveRows(s, noun, full, hist) && RowsKeepValues(s, noun, full, hist)
    requires i < |full| && hist[i].event.action.Noun() == noun
    ensures full[i] == if HasRow(s, hist[i].docid) then hist[i].event else hist[i].event.(oldValue := None)
  {
    AsWritten(full, hist, i);
  }

  lemma ValueHasItsRow<K(!new), C>(s: Shelf<K, C>, noun: Noun, full: seq<Event>, hist: seq<Record>, i: nat)
    requires SameEvents(full, hist) && RecordsMatch(s, noun, hist) && ValuesHaveRows(s, noun, full, hist)
    requires i < |full| && full[i].action.Noun() == noun && full[i].oldValue.Some?
    ensures exists k :: k in s.rows && s.rows[k].docid == hist[i].docid
                        && s.rows[k].owner == full[i].owner && s.rows[k].subject == full[i].subject
  {
    assert HasRow(s, hist[i].docid);
  }

  /** The stored events are the last `maxEntries` of the history, each as it was written
      except for a value stripped since. */
  ghost predicate NewestOf(log: Log, hist: seq<Record>, maxEntries: int) {
    && |log.events| == (if |hist| < maxEntries then |hist| else maxEntries)
    && log.last == |hist|
    && |log.events| <= |hist|
    && forall j {:trigger log.events[j]} ::
         0 <= j < |log.events| ==> Stripped(log.events[j], hist[|hist| - |log.events| + j].event)
  }

  /** An event as it was written, or without its value. */
  predicate Stripped(e: Event, was: Event) {
    e == was || e == was.(oldValue := None)
  }

  lemma StoredLogIsNewestHistory(u: Unicode, w: World, limits: Limits)
    requires IsReachable(u, w, limits) && limits.maxEntries >= 0
    ensures NewestOf(w.db.log, w.hist, limits.maxEntries)
  {
    ReachableLog(u, w, limits);
    StoredIsNewest(w.db.log, w.full, w.hist, limits.maxEntries);
  }

  lemma ReachableLog(u: Unicode, w: World, limits: Limits)
    requires IsReachable(u, w, limits)
    ensures Stored(w.db.log, w.full, limits.maxEntries) && SameEvents(w.full, w.hist)
  {
    ReachableIsGood(u, w, limits);
  }

  lemma StoredIsNewest(log: Log, full: seq<Event>, hist: seq<Record>, maxEntries: int)
    requires Stored(log, full, maxEntries) && SameEvents(full, hist) && maxEntries >= 0
    ensures NewestOf(log, hist, maxEntries)
  {
    forall j {:trigger log.events[j]} | 0 <= j < |log.events|
      ensures Stripped(log.events[j], hist[|hist| - |log.events| + j].event)
    {
      NewestAt(full, maxEntries, j);
      AsWritten(full, hist, |hist| - |log.events| + j);
    }
  }

  lemma NewestAt(full: seq<Event>, n: int, j: nat)
    requires j < |Newest(full, n)|
    ensures |Newest(full, n)| <= |full| && Newest(full, n)[j] == full[|full| - |Newest(full, n)| + j]
  {
  }

  lemma AsWritten(full: seq<Event>, hist: seq<Record>, i: nat)
    requires SameEvents(full, hist) && i < |full|
    ensures Stripped(full[i], hist[i].event)
  {
  }

  // ---- rows and their events ------------------------------------------------------------------

  /** A row's revision is the number of events that wrote it since it was inserted, and in a
      persona never deleted a key or note is live exactly when the last event about it is a
      write and not a forget. */
  lemma RowsAgreeWithHistory(u: Unicode, w: World, limits: Limits)
    requires IsReachable(u, w, limits)
    ensures forall k :: k in w.db.fields.rows ==>
      w.db.fields.rows[k].revision == Revisions(w.hist, FieldNoun, w.db.fields.rows[k].docid)
    ensures forall k :: k in w.db.notes.rows ==>
      w.db.notes.rows[k].revision == Revisions(w.hist, NoteNoun, w.db.notes.rows[k].docid)
    ensures forall k: FieldKey :: k.owner !in w.deleted ==>
      (k in w.db.fields.rows && w.db.fields.rows[k].Live() <==> LastIsWrite(w.hist, FieldNoun, k.owner, k.key))
    ensures forall owner, id ::
              owner !in w.deleted ==> (HasLiveNote(w.db, owner, id) <==> LastIsWrite(w.hist, NoteNoun, owner, id))
  {
    ReachableIsGood(u, w, limits);
    forall k: FieldKey | k.owner !in w.deleted
      ensures k in w.db.fields.rows && w.db.fields.rows[k].Live() <==> LastIsWrite(w.hist, FieldNoun, k.owner, k.key)
    {
      assert HeldLive(w.db.fields, k.owner, k.key) <==> LastIsWrite(w.hist, FieldNoun, k.owner, k.key);
    }
    forall owner, id | owner !in w.deleted
      ensures HasLiveNote(w.db, owner, id) <==> LastIsWrite(w.hist, NoteNoun, owner, id)
    {
      assert HeldLive(w.db.notes, owner, id) <==> LastIsWrite(w.hist, NoteNoun, owner, id);
    }
  }

  // ---- no credential ----------------------------------------------------------------------------

  lemma StoredTextsAreClean(u: Unicode, w: World, limits: Limits)
    requires IsReachable(u, w, limits)
    ensures forall k :: k in w.db.fields.rows ==>
      LooksLikeACredential(u, w.db.fields.rows[k].content.valueJson) == None
      && LooksLikeACredential(u, w.db.fields.rows[k].content.description) == None
    ensures forall k :: k in w.db.notes.rows ==> LooksLikeACredential(u, w.db.notes.rows[k].content.body) == None
    ensures forall o :: o in w.db.personas ==>
      VettedCard(u, CardText(w.db.personas[o].displayName, w.db.personas[o].pronouns, w.db.personas[o].summary))
  {
    ReachableIsGood(u, w, limits);
    forall k | k in w.db.fields.rows
      ensures Clean(u, w.db.fields.rows[k].content.valueJson) && Clean(u, w.db.fields.rows[k].content.description)
    {
      assert FieldKind(u).storable(w.db.fields.rows[k].content);
    }
    forall k | k in w.db.notes.rows ensures Clean(u, w.db.notes.rows[k].content.body) {
      assert NoteKindOf(u).storable(w.db.notes.rows[k].content);
    }
  }

  /** No text stored on any row or card is shaped like a credential anywhere in it. */
  lemma NoCredentialStored(u: Unicode, w: World, limits: Limits)
    requires IsReachable(u, w, limits)
    ensures forall k :: k in w.db.fields.rows ==>
      !CredentialShaped(u, w.db.fields.rows[k].content.valueJson)
      && !CredentialShaped(u, w.db.fields.rows[k].content.description)
    ensures forall k :: k in w.db.notes.rows ==> !CredentialShaped(u, w.db.notes.rows[k].content.body)
    ensures forall o :: o in w.db.personas ==>
      && (w.db.personas[o].displayName.Some? ==> !CredentialShaped(u, w.db.personas[o].displayName.value))
      && (w.db.personas[o].pronouns.Some? ==> !CredentialShaped(u, w.db.personas[o].pronouns.value))
      && (w.db.personas[o].summary.Some? ==> !CredentialShaped(u, w.db.personas[o].summary.value))
  {
    StoredTextsAreClean(u, w, limits);
    forall text ensures LooksLikeACredential(u, text).None? <==> !CredentialShaped(u, text) {
      RefusedExactly(u, text);
    }
  }
}
