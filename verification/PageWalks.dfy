/** Walking the pages of a store that is written to meanwhile.  A walk fetches its pages at some
    moments of a run; what it shows is settled by what the run's commands may do to a row's
    place in the listing. */
module PageWalks {
  import opened Wrappers
  import opened Text
  import opened Tables
  import opened Storage
  import opened Transactions
  import opened Books
  import opened EventLog
  import opened Paging
  import opened Machine
  import opened Reachable
  import opened Cursors
  import opened Times
  import FieldStore
  import NoteStore

  // ---- the cursor in the query ----------------------------------------------------------------

  lemma {:induction false} StampHasOnlyItsOwn(parts: seq<Part>, c: char)
    requires forall i :: 0 <= i < |parts| ==> Fits(parts[i]) && c !in parts[i].after
    requires !Times.IsDecimal(c)
    ensures c !in Stamp(parts)
  {
    if parts != [] {
      assert Fits(parts[0]);
      NumberOfDigits(parts[0].n, parts[0].width);
      StampHasOnlyItsOwn(parts[1..], c);
    }
  }

  lemma ColumnHasNoSeparator(c: Civil)
    requires IsCivil(c)
    ensures SEPARATOR !in Isoformat(c)
  {
    PartsFit(c);
    assert forall i :: 0 <= i < 7 ==> Fits(Parts(c)[i]) && SEPARATOR !in Parts(c)[i].after;
    StampHasOnlyItsOwn(Parts(c), SEPARATOR);
  }

  /** The stamp column of an instant. */
  function Column(i: Instant): string
    requires OnCalendar(i)
  {
    Isoformat(CivilOf(i))
  }

  /** `(column, id) < (?, ?)`, on texts. */
  predicate TextBefore(c1: string, id1: string, c2: string, id2: string) {
    Less(c1, c2) || (c1 == c2 && Less(id1, id2))
  }

  /** A cursor made for a row decodes to that row's column and id, and comparing columns and ids
      as texts is comparing the rows' places: so a page query selects what the page means. */
  lemma CursorSelectsWhatFollows(row: Position, cursor: Position)
    requires OnCalendar(row.at) && OnCalendar(cursor.at)
    ensures DecodeCursor(EncodeCursor(Column(cursor.at), cursor.id)) == Success((Column(cursor.at), cursor.id))
    ensures TextBefore(Column(row.at), row.id, Column(cursor.at), cursor.id) <==> Before(row, cursor)
  {
    ColumnHasNoSeparator(CivilOf(cursor.at));
    CursorRoundTrip(Column(cursor.at), cursor.id);
    IsoformatOrder(CivilOf(row.at), CivilOf(cursor.at));
    IsoformatOrder(CivilOf(cursor.at), CivilOf(row.at));
    LessIrreflexive(Column(row.at));
    LessTotal(Column(row.at), Column(cursor.at));
  }

  // ---- moments of a run -----------------------------------------------------------------------

  lemma {:induction false} RunSplits(u: Unicode, w: World, limits: Limits, cs: seq<Command>, n: nat)
    requires n <= |cs| && PossibleRun(u, w, limits, cs)
    ensures PossibleRun(u, w, limits, cs[..n]) && PossibleRun(u, Run(w, limits, cs[..n]), limits, cs[n..])
    ensures Run(w, limits, cs) == Run(Run(w, limits, cs[..n]), limits, cs[n..])
    decreases |cs|
  {
    if n == 0 {
      assert cs[..0] == [] && cs[0..] == cs;
    } else {
      var rest := cs[1..];
      RunSplits(u, Next(w, limits, cs[0]), limits, rest, n - 1);
      assert cs[..n][0] == cs[0] && cs[..n][1..] == rest[..n - 1] && cs[n..] == rest[n - 1..];
    }
  }

  function At(w: World, limits: Limits, cs: seq<Command>, n: nat): World
    requires n <= |cs|
  {
    Run(w, limits, cs[..n])
  }

  /** The moments at which pages are fetched, none before the one it follows. */
  predicate InTime(cs: seq<Command>, moments: seq<nat>) {
    (forall i :: 0 <= i < |moments| ==> moments[i] <= |cs|)
    && (forall i, j :: 0 <= i <= j < |moments| ==> moments[i] <= moments[j])
  }

  lemma LaterMoment(u: Unicode, w: World, limits: Limits, cs: seq<Command>, m: nat, n: nat)
    requires m <= n <= |cs| && PossibleRun(u, w, limits, cs)
    ensures At(w, limits, cs, n) == Run(At(w, limits, cs, m), limits, cs[m..n])
    ensures PossibleRun(u, At(w, limits, cs, m), limits, cs[m..n])
  {
    RunSplits(u, w, limits, cs, n);
    RunSplits(u, w, limits, cs[..n], m);
    assert cs[..n][..m] == cs[..m] && cs[..n][m..] == cs[m..n];
  }

  // ---- notes ------------------------------------------------------------------------------------

  /** Note ids are minted once: none of `used` again, and none twice. */
  predicate MintsNewIds(cs: seq<Command>, used: set<string>) {
    && (forall i :: 0 <= i < |cs| && cs[i].WriteNoteCmd? ==> cs[i].outside.freshId !in used)
    && (forall i, j :: 0 <= i < j < |cs| && cs[i].WriteNoteCmd? && cs[j].WriteNoteCmd? ==>
          cs[i].outside.freshId != cs[j].outside.freshId)
  }

  predicate Mints(cs: seq<Command>, id: string) {
    exists i :: 0 <= i < |cs| && cs[i].WriteNoteCmd? && cs[i].outside.freshId == id
  }

  lemma NoteWritesStayPut(t: Tables, limits: Limits, c: Command, k: string)
    requires c.WriteNoteCmd? || c.ReviseNoteCmd? || c.ForgetNoteCmd?
    requires k in Apply(t, limits, c).notes.rows && (c.WriteNoteCmd? ==> c.outside.freshId != k)
    ensures k in t.notes.rows && Apply(t, limits, c).notes.rows[k].createdAt == t.notes.rows[k].createdAt
  {
  }

  /** No command moves a note: one with an id already used was there, created when it was. */
  lemma NoteStaysPut(t: Tables, limits: Limits, c: Command, k: string)
    requires Named(t) && k in Apply(t, limits, c).notes.rows && (c.WriteNoteCmd? ==> c.outside.freshId != k)
    ensures k in t.notes.rows && Apply(t, limits, c).notes.rows[k].createdAt == t.notes.rows[k].createdAt
  {
    match c
    case SetFieldCmd(r, o) => SetFieldOnlyTouches(t, limits, r, o);
    case ForgetFieldCmd(r, o) => ForgetFieldOnlyTouches(t, limits, r, o);
    case WriteNoteCmd(_, _) => NoteWritesStayPut(t, limits, c, k);
    case ReviseNoteCmd(_, _) => NoteWritesStayPut(t, limits, c, k);
    case ForgetNoteCmd(_, _) => NoteWritesStayPut(t, limits, c, k);
    case _ =>
  }

  lemma {:induction false} NotesStayPut(u: Unicode, w: World, limits: Limits, cs: seq<Command>, k: string)
    requires Named(w.db) && PossibleRun(u, w, limits, cs)
    requires !Mints(cs, k) && k in Run(w, limits, cs).db.notes.rows
    ensures k in w.db.notes.rows && Run(w, limits, cs).db.notes.rows[k].createdAt == w.db.notes.rows[k].createdAt
    decreases |cs|
  {
    if cs != [] {
      NamesKept(u, w.db, limits, cs[0]);
      assert forall i :: 0 <= i < |cs| - 1 ==> cs[1..][i] == cs[i + 1];
      NotesStayPut(u, Next(w, limits, cs[0]), limits, cs[1..], k);
      NoteStaysPut(w.db, limits, cs[0], k);
    }
  }

  /** A note there is now was there before or has been minted since. */
  lemma NotesAreKnown(u: Unicode, w: World, limits: Limits, cs: seq<Command>, k: string)
    requires Named(w.db) && PossibleRun(u, w, limits, cs) && k in Run(w, limits, cs).db.notes.rows
    ensures k in w.db.notes.rows || Mints(cs, k)
  {
    if !Mints(cs, k) { NotesStayPut(u, w, limits, cs, k); }
  }

  lemma {:induction false} NamesStay(u: Unicode, w: World, limits: Limits, cs: seq<Command>)
    requires Named(w.db) && PossibleRun(u, w, limits, cs)
    ensures Named(Run(w, limits, cs).db)
    decreases |cs|
  {
    if cs != [] {
      NamesKept(u, w.db, limits, cs[0]);
      NamesStay(u, Next(w, limits, cs[0]), limits, cs[1..]);
    }
  }

  /** An id in use at one moment is not minted after it. */
  lemma NotMintedAgain(cs: seq<Command>, used: set<string>, m: nat, n: nat, k: string)
    requires MintsNewIds(cs, used) && m <= n <= |cs| && (k in used || Mints(cs[..m], k))
    ensures !Mints(cs[m..n], k)
  {
    forall j | 0 <= j < n - m && cs[m..n][j].WriteNoteCmd? ensures cs[m..n][j].outside.freshId != k {
      assert cs[m..n][j] == cs[m + j];
      if k !in used {
        var i :| 0 <= i < m && cs[..m][i].WriteNoteCmd? && cs[..m][i].outside.freshId == k;
        assert cs[..m][i] == cs[i];
      }
    }
  }

  lemma NoteMomentsAgree(u: Unicode, w: World, limits: Limits, cs: seq<Command>, m: nat, n: nat, k: string)
    requires Named(w.db) && PossibleRun(u, w, limits, cs) && MintsNewIds(cs, w.db.notes.rows.Keys) && m <= n <= |cs|
    requires k in At(w, limits, cs, m).db.notes.rows && k in At(w, limits, cs, n).db.notes.rows
    ensures At(w, limits, cs, m).db.notes.rows[k].createdAt == At(w, limits, cs, n).db.notes.rows[k].createdAt
  {
    RunSplits(u, w, limits, cs, m);
    NotesAreKnown(u, w, limits, cs[..m], k);
    NamesStay(u, w, limits, cs[..m]);
    LaterMoment(u, w, limits, cs, m, n);
    NotMintedAgain(cs, w.db.notes.rows.Keys, m, n, k);
    NotesStayPut(u, At(w, limits, cs, m), limits, cs[m..n], k);
  }

  function NoteTables(w: World, limits: Limits, cs: seq<Command>, moments: seq<nat>, owner: Owner,
                      f: NoteStore.NoteFilters): seq<set<Position>>
    requires InTime(cs, moments)
  {
    seq(|moments|, i requires 0 <= i < |moments| =>
        NoteStore.NotePositions(At(w, limits, cs, moments[i]).db.notes.rows, owner, f))
  }

  lemma NotePlaces(w: World, limits: Limits, cs: seq<Command>, moments: seq<nat>, owner: Owner,
                   f: NoteStore.NoteFilters, i: nat, p: Position)
    requires InTime(cs, moments) && i < |moments| && p in NoteTables(w, limits, cs, moments, owner, f)[i]
    ensures var rows := At(w, limits, cs, moments[i]).db.notes.rows; p.id in rows && rows[p.id].createdAt == p.at
  {
  }

  lemma NoteHasOnePlace(u: Unicode, w: World, limits: Limits, cs: seq<Command>, moments: seq<nat>, owner: Owner,
                        f: NoteStore.NoteFilters, i: nat, p: Position, j: nat, q: Position)
    requires Named(w.db) && PossibleRun(u, w, limits, cs) && MintsNewIds(cs, w.db.notes.rows.Keys)
             && InTime(cs, moments)
    requires i < |moments| && j < |moments| && p.id == q.id
    requires p in NoteTables(w, limits, cs, moments, owner, f)[i]
             && q in NoteTables(w, limits, cs, moments, owner, f)[j]
    ensures p == q
  {
    NotePlaces(w, limits, cs, moments, owner, f, i, p);
    NotePlaces(w, limits, cs, moments, owner, f, j, q);
    if i <= j {
      NoteMomentsAgree(u, w, limits, cs, moments[i], moments[j], p.id);
    } else {
      NoteMomentsAgree(u, w, limits, cs, moments[j], moments[i], p.id);
    }
  }

  /** A walk of a persona's notes shows no note twice, whatever is written, revised, forgotten and
      purged between the pages. */
  lemma NoNoteTwice(u: Unicode, w: World, limits: Limits, cs: seq<Command>, moments: seq<nat>, owner: Owner,
                    f: NoteStore.NoteFilters, limit: nat, pages: seq<Page>)
    requires Named(w.db) && PossibleRun(u, w, limits, cs) && MintsNewIds(cs, w.db.notes.rows.Keys)
             && InTime(cs, moments)
    requires WalkSoFar(NoteTables(w, limits, cs, moments, owner, f), limit, pages)
    ensures forall i, j, p, q :: Shows(pages, i, p) && Shows(pages, j, q) && p.id == q.id ==> i == j && p == q
    ensures forall i :: 0 <= i < |pages| ==> |ToSet(pages[i].items)| == |pages[i].items|
  {
    var tables := NoteTables(w, limits, cs, moments, owner, f);
    WalkIsChained(tables, limit, pages);
    forall i, j, p, q | Shows(pages, i, p) && Shows(pages, j, q) && p.id == q.id ensures i == j && p == q {
      NoteHasOnePlace(u, w, limits, cs, moments, owner, f, i, p, j, q);
      NoPositionTwice(tables, limit, pages, p);
    }
    NoPositionTwice(tables, limit, pages, Position(0, ""));
  }

  ghost predicate NoteMatches(t: Tables, owner: Owner, f: NoteStore.NoteFilters, id: string) {
    id in t.notes.rows && NoteStore.Satisfies(t.notes.rows[id], owner, f)
  }


  /** And it shows every note that matches the filters at each fetch, so exactly once. */
  lemma MatchingNoteIsShown(u: Unicode, w: World, limits: Limits, cs: seq<Command>, moments: seq<nat>, owner: Owner,
                            f: NoteStore.NoteFilters, limit: nat, pages: seq<Page>, id: string)
    requires Named(w.db) && PossibleRun(u, w, limits, cs) && MintsNewIds(cs, w.db.notes.rows.Keys)
             && InTime(cs, moments)
    requires Walk(NoteTables(w, limits, cs, moments, owner, f), limit, pages)
    requires forall i :: 0 <= i < |moments| ==> NoteMatches(At(w, limits, cs, moments[i]).db, owner, f, id)
    ensures exists i, p :: Shows(pages, i, p) && p.id == id
  {
    var tables := NoteTables(w, limits, cs, moments, owner, f);
    assert NoteMatches(At(w, limits, cs, moments[0]).db, owner, f, id);
    var p := Position(At(w, limits, cs, moments[0]).db.notes.rows[id].createdAt, id);
    forall i | 0 <= i < |moments| ensures p in tables[i] {
      NoteMomentsAgree(u, w, limits, cs, moments[0], moments[i], id);
      assert NoteMatches(At(w, limits, cs, moments[i]).db, owner, f, id);
    }
    SteadyPositionShown(tables, limit, pages, p);
  }

  // ---- fields -----------------------------------------------------------------------------------

  /** When a command that can write a field reads the clock. */
  function WritesAt(c: Command): Option<Instant> {
    match c
    case SetFieldCmd(_, o) => Some(o.now)
    case ForgetFieldCmd(_, o) => Some(o.now)
    case _ => None
  }

  /** The clock those commands read never goes back, and is never before `from`. */
  predicate ClockGoesOn(cs: seq<Command>, from: Instant) {
    && (forall i :: 0 <= i < |cs| && WritesAt(cs[i]).Some? ==> from <= WritesAt(cs[i]).value)
    && (forall i, j :: 0 <= i < j < |cs| && WritesAt(cs[i]).Some? && WritesAt(cs[j]).Some? ==>
          WritesAt(cs[i]).value <= WritesAt(cs[j]).value)
  }

  /** A field is left alone, or written at its command's time. */
  lemma FieldMovesToNow(t: Tables, limits: Limits, c: Command, k: FieldKey)
    requires Named(t) && k in Apply(t, limits, c).fields.rows
    ensures var row' := Apply(t, limits, c).fields.rows[k];
            || (k in t.fields.rows && row'.updatedAt == t.fields.rows[k].updatedAt)
            || Some(row'.updatedAt) == WritesAt(c)
  {
    match c
    case SetFieldCmd(r, o) =>
      SetFieldOnlyTouches(t, limits, r, o);
      if k == FieldKey(r.owner, r.write.key) { SetMovesToNow(t, limits, r, o); }
    case ForgetFieldCmd(r, o) =>
      ForgetFieldOnlyTouches(t, limits, r, o);
      if k == FieldKey(r.owner, r.subject) { ForgetMovesToNow(t, limits, r, o); }
    case _ =>
  }

  lemma SetMovesToNow(t: Tables, limits: Limits, r: SetRequest, o: Outside)
    requires FieldKey(r.owner, r.write.key) in SetField(t, limits, r, o).After(t).fields.rows
    ensures var k := FieldKey(r.owner, r.write.key);
            var row' := SetField(t, limits, r, o).After(t).fields.rows[k];
            (k in t.fields.rows && row' == t.fields.rows[k]) || row'.updatedAt == o.now
  {
  }

  lemma ForgetMovesToNow(t: Tables, limits: Limits, r: ForgetRequest, o: Outside)
    requires FieldKey(r.owner, r.subject) in ForgetField(t, limits, r, o).After(t).fields.rows
    ensures var k := FieldKey(r.owner, r.subject);
            var row' := ForgetField(t, limits, r, o).After(t).fields.rows[k];
            (k in t.fields.rows && row' == t.fields.rows[k]) || row'.updatedAt == o.now
  {
  }

  ghost predicate WrittenBy(t: Tables, clock: Instant) {
    forall k :: k in t.fields.rows ==> t.fields.rows[k].updatedAt <= clock
  }

  predicate WrittenAt(cs: seq<Command>, at: Instant) {
    exists i :: 0 <= i < |cs| && WritesAt(cs[i]) == Some(at)
  }

  /** After a run a field stands where it stood, or where some command of the run wrote it. */
  lemma {:induction false} FieldStandsWhereWritten(u: Unicode, w: World, limits: Limits, cs: seq<Command>, k: FieldKey)
    requires Named(w.db) && PossibleRun(u, w, limits, cs) && k in Run(w, limits, cs).db.fields.rows
    ensures var at := Run(w, limits, cs).db.fields.rows[k].updatedAt;
            (k in w.db.fields.rows && at == w.db.fields.rows[k].updatedAt) || WrittenAt(cs, at)
    decreases |cs|
  {
    if cs != [] {
      var rest := cs[1..];
      var w' := Next(w, limits, cs[0]);
      NamesKept(u, w.db, limits, cs[0]);
      FieldStandsWhereWritten(u, w', limits, rest, k);
      var at := Run(w, limits, cs).db.fields.rows[k].updatedAt;
      if WrittenAt(rest, at) {
        var i :| 0 <= i < |rest| && WritesAt(rest[i]) == Some(at);
        assert cs[i + 1] == rest[i];
      } else {
        FieldMovesToNow(w.db, limits, cs[0], k);
      }
    }
  }

  /** What was written by one moment was written before what is written after it. */
  lemma LaterIsLater(cs: seq<Command>, from: Instant, m: nat, n: nat, a: Instant, b: Instant)
    requires ClockGoesOn(cs, from) && m <= n <= |cs| && (a <= from || WrittenAt(cs[..m], a)) && WrittenAt(cs[m..n], b)
    ensures a <= b
  {
    var j :| 0 <= j < n - m && WritesAt(cs[m..n][j]) == Some(b);
    assert cs[m..n][j] == cs[m + j];
    if a > from {
      var i :| 0 <= i < m && WritesAt(cs[..m][i]) == Some(a);
      assert cs[..m][i] == cs[i];
    }
  }

  lemma FieldMomentsGoOn(u: Unicode, w: World, limits: Limits, cs: seq<Command>, from: Instant, m: nat, n: nat,
                         k: FieldKey)
    requires Named(w.db) && PossibleRun(u, w, limits, cs) && ClockGoesOn(cs, from) && WrittenBy(w.db, from)
             && m <= n <= |cs|
    requires k in At(w, limits, cs, m).db.fields.rows && k in At(w, limits, cs, n).db.fields.rows
    ensures At(w, limits, cs, m).db.fields.rows[k].updatedAt <= At(w, limits, cs, n).db.fields.rows[k].updatedAt
  {
    RunSplits(u, w, limits, cs, m);
    NamesStay(u, w, limits, cs[..m]);
    FieldStandsWhereWritten(u, w, limits, cs[..m], k);
    LaterMoment(u, w, limits, cs, m, n);
    FieldStandsWhereWritten(u, At(w, limits, cs, m), limits, cs[m..n], k);
    var a, b := At(w, limits, cs, m).db.fields.rows[k].updatedAt, At(w, limits, cs, n).db.fields.rows[k].updatedAt;
    if a != b { LaterIsLater(cs, from, m, n, a, b); }
  }

  function FieldTables(w: World, limits: Limits, cs: seq<Command>, moments: seq<nat>, owner: Owner,
                       f: FieldStore.FieldConditions): seq<set<Position>>
    requires InTime(cs, moments)
  {
    seq(|moments|, i requires 0 <= i < |moments| =>
        FieldStore.FieldPositions(At(w, limits, cs, moments[i]).db.fields.rows, owner, f))
  }

  lemma FieldPlaces(w: World, limits: Limits, cs: seq<Command>, moments: seq<nat>, owner: Owner,
                    f: FieldStore.FieldConditions, i: nat, p: Position)
    requires InTime(cs, moments) && i < |moments| && p in FieldTables(w, limits, cs, moments, owner, f)[i]
    requires Named(At(w, limits, cs, moments[i]).db)
    ensures var rows := At(w, limits, cs, moments[i]).db.fields.rows;
            FieldKey(owner, p.id) in rows && rows[FieldKey(owner, p.id)].updatedAt == p.at
  {
  }

  lemma MomentsAreNamed(u: Unicode, w: World, limits: Limits, cs: seq<Command>, n: nat)
    requires Named(w.db) && PossibleRun(u, w, limits, cs) && n <= |cs|
    ensures Named(At(w, limits, cs, n).db)
  {
    RunSplits(u, w, limits, cs, n);
    NamesStay(u, w, limits, cs[..n]);
  }

  /** While the clock does not go back, a walk of a persona's fields shows no field twice, although
      fields move when they are written. */
  lemma NoFieldTwice(u: Unicode, w: World, limits: Limits, cs: seq<Command>, from: Instant, moments: seq<nat>,
                     owner: Owner, f: FieldStore.FieldConditions, limit: nat, pages: seq<Page>, i: nat, p: Position,
                     j: nat, q: Position)
    requires Named(w.db) && PossibleRun(u, w, limits, cs) && ClockGoesOn(cs, from) && WrittenBy(w.db, from)
             && InTime(cs, moments)
    requires WalkSoFar(FieldTables(w, limits, cs, moments, owner, f), limit, pages)
    requires Shows(pages, i, p) && Shows(pages, j, q) && p.id == q.id && i <= j
    ensures i == j && p == q
  {
    var tables := FieldTables(w, limits, cs, moments, owner, f);
    forall m, n, a: Position, b: Position | 0 <= m <= n < |tables| && a in tables[m] && b in tables[n]
                                             && a.id == b.id
      ensures a.at <= b.at
    {
      MomentsAreNamed(u, w, limits, cs, moments[m]);
      MomentsAreNamed(u, w, limits, cs, moments[n]);
      FieldPlaces(w, limits, cs, moments, owner, f, m, a);
      FieldPlaces(w, limits, cs, moments, owner, f, n, b);
      FieldMomentsGoOn(u, w, limits, cs, from, moments[m], moments[n], FieldKey(owner, a.id));
    }
    NoIdTwice(tables, limit, pages, i, p, j, q);
  }

  ghost predicate FieldMatches(t: Tables, owner: Owner, f: FieldStore.FieldConditions, k: FieldKey, at: Instant) {
    k in t.fields.rows && FieldStore.Satisfies(t.fields.rows[k], owner, f) && t.fields.rows[k].updatedAt == at
  }

  /** And whatever the clock does, it shows every matching field that was not written during the
      walk exactly once. */
  lemma UntouchedFieldIsShownOnce(w: World, limits: Limits, cs: seq<Command>, moments: seq<nat>, owner: Owner,
                                  f: FieldStore.FieldConditions, limit: nat, pages: seq<Page>, key: string, at: Instant)
    requires InTime(cs, moments) && Walk(FieldTables(w, limits, cs, moments, owner, f), limit, pages)
    requires forall i ::
               0 <= i < |moments| ==> FieldMatches(At(w, limits, cs, moments[i]).db, owner, f, FieldKey(owner, key), at)
    ensures exists i :: Shows(pages, i, Position(at, key)) && forall j :: Shows(pages, j, Position(at, key)) ==> j == i
  {
    var tables := FieldTables(w, limits, cs, moments, owner, f);
    forall i | 0 <= i < |tables| ensures Position(at, key) in tables[i] {
      assert FieldMatches(At(w, limits, cs, moments[i]).db, owner, f, FieldKey(owner, key), at);
    }
    SteadyPositionShownOnce(tables, limit, pages, Position(at, key));
  }

  // ---- events -----------------------------------------------------------------------------------

  /** The history only grows. */
  lemma {:induction false} HistoryGrows(w: World, limits: Limits, cs: seq<Command>)
    ensures w.hist <= Run(w, limits, cs).hist
    decreases |cs|
  {
    if cs != [] {
      OpsOnlyAdd(w.hist, Ops(w.db, limits, cs[0]));
      HistoryGrows(Next(w, limits, cs[0]), limits, cs[1..]);
    }
  }

  lemma {:induction false} OpsOnlyAdd(hist: seq<Record>, ops: seq<LogOp>)
    ensures hist <= HistAfter(hist, ops)
    decreases |ops|
  {
    if ops != [] {
      match ops[0]
      case Say(record) => OpsOnlyAdd(Remembered(hist, record.event, record.docid), ops[1..]);
      case Strike(_) => OpsOnlyAdd(hist, ops[1..]);
    }
  }

  /** `str(sequence)` */
  function Decimal(n: nat): string {
    (if n < 10 then "" else Decimal(n / 10)) + [Digit(n % 10)]
  }

  lemma {:induction false} DecimalReadsBack(n: nat)
    ensures forall i :: 0 <= i < |Decimal(n)| ==> Times.IsDecimal(Decimal(n)[i])
    ensures Number(Decimal(n)) == n
  {
    if n >= 10 {
      DecimalReadsBack(n / 10);
      assert Decimal(n)[..|Decimal(n)| - 1] == Decimal(n / 10);
    }
  }

  /** The cursor of an event decodes to its sequence in decimal and its id; read as a number again,
      the sequence selects exactly the events before it. */
  lemma EventCursorSelectsWhatFollows(row: nat, cursor: nat, eventId: string)
    ensures DecodeCursor(EncodeCursor(Decimal(cursor), eventId)) == Success((Decimal(cursor), eventId))
    ensures forall i :: 0 <= i < |Decimal(cursor)| ==> Times.IsDecimal(Decimal(cursor)[i])
    ensures row < Number(Decimal(cursor)) <==> Before(Position(row, ""), Position(cursor, ""))
  {
    DecimalReadsBack(cursor);
    CursorRoundTrip(Decimal(cursor), eventId);
    assert !Times.IsDecimal(SEPARATOR);
  }

  /** Which events a persona's listing holds: its own among the newest of the history. */
  lemma ListedEvents(log: Log, full: seq<Event>, hist: seq<Record>, maxEntries: int, owner: Owner, n: nat)
    requires Stored(log, full, maxEntries) && SameEvents(full, hist)
    ensures Position(n, "") in EventPositions(log.events, owner) <==>
              |hist| - maxEntries < n <= |hist| && n >= 1 && hist[n - 1].event.owner == owner
  {
    ListedIsWritten(log, full, maxEntries, owner, n);
    if 1 <= n <= |full| { assert full[n - 1].owner == hist[n - 1].event.owner; }
  }

  lemma ListedIsWritten(log: Log, full: seq<Event>, maxEntries: int, owner: Owner, n: nat)
    requires Stored(log, full, maxEntries)
    ensures Position(n, "") in EventPositions(log.events, owner) <==>
              |full| - maxEntries < n <= |full| && n >= 1 && full[n - 1].owner == owner
  {
    var first := |full| - |log.events|;
    if Position(n, "") in EventPositions(log.events, owner) {
      var i :| 0 <= i < |log.events| && log.events[i].owner == owner && log.events[i].sequence == n;
      assert log.events[i] == full[first + i];
    }
    if |full| - maxEntries < n <= |full| && n >= 1 && full[n - 1].owner == owner {
      var i := n - 1 - first;
      assert 0 <= i < |log.events| && log.events[i] == full[n - 1];
      assert full[n - 1].sequence == n;
    }
  }

  function EventTables(w: World, limits: Limits, cs: seq<Command>, moments: seq<nat>, owner: Owner): seq<set<Position>>
    requires InTime(cs, moments)
  {
    seq(|moments|, i requires 0 <= i < |moments| => EventPositions(At(w, limits, cs, moments[i]).db.log.events, owner))
  }

  /** An event listed at a moment was listed at every earlier one at which it had been written. */
  lemma ListedBefore(u: Unicode, w: World, limits: Limits, cs: seq<Command>, m: nat, n: nat, owner: Owner,
                     sequence: nat)
    requires Good(u, w, limits) && PossibleRun(u, w, limits, cs) && m <= n <= |cs|
    requires Position(sequence, "") in EventPositions(At(w, limits, cs, n).db.log.events, owner)
    requires sequence <= |At(w, limits, cs, m).hist|
    ensures Position(sequence, "") in EventPositions(At(w, limits, cs, m).db.log.events, owner)
  {
    RunSplits(u, w, limits, cs, m);
    RunSplits(u, w, limits, cs, n);
    RunIsGood(u, w, limits, cs[..m]);
    RunIsGood(u, w, limits, cs[..n]);
    LaterMoment(u, w, limits, cs, m, n);
    HistoryGrows(At(w, limits, cs, m), limits, cs[m..n]);
    var a, b := At(w, limits, cs, m), At(w, limits, cs, n);
    ListedEvents(a.db.log, a.full, a.hist, limits.maxEntries, owner, sequence);
    ListedEvents(b.db.log, b.full, b.hist, limits.maxEntries, owner, sequence);
  }

  /** A walk of a persona's events shows each event that was there when it began and is still there
      when it ends exactly once, whatever is written and trimmed meanwhile. */
  lemma EventWalk(u: Unicode, w: World, limits: Limits, cs: seq<Command>, moments: seq<nat>, owner: Owner, limit: nat,
                  pages: seq<Page>, sequence: nat)
    requires Good(u, w, limits) && PossibleRun(u, w, limits, cs) && InTime(cs, moments)
    requires Walk(EventTables(w, limits, cs, moments, owner), limit, pages)
    requires sequence <= |At(w, limits, cs, moments[0]).hist|
    requires Position(sequence, "") in EventTables(w, limits, cs, moments, owner)[|moments| - 1]
    ensures exists i ::
              Shows(pages, i, Position(sequence, "")) && forall j :: Shows(pages, j, Position(sequence, "")) ==> j == i
  {
    var tables := EventTables(w, limits, cs, moments, owner);
    forall i | 0 <= i < |moments| ensures Position(sequence, "") in tables[i] {
      RunSplits(u, w, limits, cs, moments[i]);
      LaterMoment(u, w, limits, cs, moments[0], moments[i]);
      HistoryGrows(At(w, limits, cs, moments[0]), limits, cs[moments[0]..moments[i]]);
      ListedBefore(u, w, limits, cs, moments[i], moments[|moments| - 1], owner, sequence);
    }
    SteadyPositionShownOnce(tables, limit, pages, Position(sequence, ""));
  }
}
