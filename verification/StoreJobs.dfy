/** The callables the stores submit, cut into the statements they consist of, and why each of them
    is one transaction of the machine when it runs whole. */
module StoreJobs {
  import opened Wrappers
  import opened Text
  import opened Tables
  import opened Transactions
  import opened Books
  import opened EventLog
  import opened Due
  import opened Vetting
  import opened Machine
  import opened Reachable
  import opened Executor
  import opened Concurrency

  /** What a callable has in hand between its statements: the rows its queries returned, and
      whether it has nothing left to do. */
  datatype Hand = Hand(found: Option<FieldRow>, fields: set<FieldKey>, notes: set<string>, finished: bool)

  const NOTHING := Hand(None, {}, {}, false)

  type WorldStatement = (World, Hand) -> Option<(World, Hand)>

  // ---- setting a field, statement by statement ---------------------------------------------------

  function FieldsOf(w: World, fields: FieldShelf): World {
    w.(db := WithFields(w.db, fields))
  }

  function Heard(w: World, limits: Limits, e: Event, docid: nat): World {
    World(Said(w.db, limits, e), Spoken(w.full, e), Remembered(w.hist, e, docid), w.deleted)
  }

  /** SELECT the row; if its term has ended, DELETE it with its index entry and strip the log. */
  function LookAndDestroy(r: SetRequest, o: Outside, w: World, h: Hand): Option<(World, Hand)> {
    var k := FieldKey(r.owner, r.write.key);
    if k in w.db.fields.rows && w.db.fields.rows[k].PastDue(o.now) then Some((WithFieldsDestroyed(w, {k}), h))
    else if k in w.db.fields.rows then Some((w, h.(found := Some(w.db.fields.rows[k]))))
    else Some((w, h))
  }

  /** The unchanged test, then the counts. */
  function CheckRoom(limits: Limits, r: SetRequest, w: World, h: Hand): Option<(World, Hand)> {
    var ceiling := Ceiling(r.ceiling, limits.maxPinnedFields);
    if h.found.Some? && FieldUnchanged(h.found.value, r) then Some((w, h.(finished := true)))
    else
      var adding := h.found.None? || !h.found.value.Live();
      var pinning := if h.found.Some? then WillBePinned(h.found.value.pinned, r.pinned) && !h.found.value.pinned
                     else r.pinned == Some(true);
      if CapError(w.db.fields.rows, r.owner, adding, pinning, limits.maxFields, ceiling).Some? then None
          else Some((w, h))
  }

  /** UPDATE the row, or take a docid and INSERT one. */
  function WriteRow(r: SetRequest, o: Outside, w: World, h: Hand): Option<(World, Hand)> {
    var k := FieldKey(r.owner, r.write.key);
    var s := w.db.fields;
    if h.finished then Some((w, h))
    else if h.found.Some? then
      Some((FieldsOf(w, Shelf(s.rows[k := RevisedField(h.found.value, r, o.now)], s.index, s.next)), h))
    else if r.owner !in w.db.personas || FieldIdTaken(s.rows, o.freshId) then None
    else Some((FieldsOf(w, Shelf(s.rows[k := NewField(r, o).(docid := s.next + 1)], s.index, s.next + 1)), h))
  }

  /** The words of the row, under its docid. */
  function WriteIndex(r: SetRequest, w: World, h: Hand): Option<(World, Hand)> {
    var k := FieldKey(r.owner, r.write.key);
    var s := w.db.fields;
    if h.finished || k !in s.rows then Some((w, h))
    else Some((FieldsOf(w, Shelf(s.rows, s.index[s.rows[k].docid := r.write.searchable], s.next)), h))
  }

  function EventOf(r: SetRequest, o: Outside, found: Option<FieldRow>): Event {
    if found.None? then
      Event(0, o.at, r.owner, FieldSet, r.write.key, SetAs(r.write.valueType), r.author, None)
    else
      Event(0, o.at, r.owner, if found.value.Live() then FieldRevised else FieldSet, r.write.key,
                   RevisionNumber(found.value.revision + 1), r.author,
                   if r.logValues && found.value.content.valueJson != r.write.valueJson
                   then Some(found.value.content.valueJson) else None)
  }

  /** INSERT the event, and trim. */
  function WriteEvent(limits: Limits, r: SetRequest, o: Outside, w: World, h: Hand): Option<(World, Hand)> {
    var k := FieldKey(r.owner, r.write.key);
    if h.finished || k !in w.db.fields.rows then Some((w, h))
    else Some((Heard(w, limits, EventOf(r, o, h.found), w.db.fields.rows[k].docid), h))
  }

  function SetStatements(limits: Limits, r: SetRequest, o: Outside): seq<WorldStatement> {
    [(w: World, h: Hand) => LookAndDestroy(r, o, w, h),
     (w: World, h: Hand) => CheckRoom(limits, r, w, h),
     (w: World, h: Hand) => WriteRow(r, o, w, h),
     (w: World, h: Hand) => WriteIndex(r, w, h),
     (w: World, h: Hand) => WriteEvent(limits, r, o, w, h)]
  }

  function SetJob(limits: Limits, id: nat, r: SetRequest, o: Outside): Job<World, Hand> {
    Job(id, Transaction, SetStatements(limits, r, o), NOTHING)
  }

  /** The statements one after another, as the callable is written. */
  function SetAtOnce(limits: Limits, r: SetRequest, o: Outside, w: World): Option<(World, Hand)> {
    var a := LookAndDestroy(r, o, w, NOTHING);
    if a.None? then None
    else
      var b := CheckRoom(limits, r, a.value.0, a.value.1);
      if b.None? then None
      else
        var c := WriteRow(r, o, b.value.0, b.value.1);
        if c.None? then None
        else
          var d := WriteIndex(r, c.value.0, c.value.1);
          if d.None? then None else WriteEvent(limits, r, o, d.value.0, d.value.1)
  }

  lemma ExecutesOneMore(statements: seq<WorldStatement>, last: WorldStatement, w: World, h: Hand)
    ensures var before := Execute(statements, w, h);
            Execute(statements + [last], w, h) == if before.None? then None else last(before.value.0, before.value.1)
  {
    assert (statements + [last])[..|statements|] == statements;
  }

  lemma ExecutesAtOnce(limits: Limits, r: SetRequest, o: Outside, w: World)
    ensures Execute(SetStatements(limits, r, o), w, NOTHING) == SetAtOnce(limits, r, o, w)
  {
    var s := SetStatements(limits, r, o);
    ExecutesOneMore([], s[0], w, NOTHING);
    ExecutesOneMore([s[0]], s[1], w, NOTHING);
    ExecutesOneMore([s[0], s[1]], s[2], w, NOTHING);
    ExecutesOneMore([s[0], s[1], s[2]], s[3], w, NOTHING);
    ExecutesOneMore([s[0], s[1], s[2], s[3]], s[4], w, NOTHING);
    assert [] + [s[0]] == [s[0]] && [s[0]] + [s[1]] == [s[0], s[1]];
    assert [s[0], s[1]] + [s[2]] == [s[0], s[1], s[2]];
    assert [s[0], s[1], s[2]] + [s[3]] == [s[0], s[1], s[2], s[3]];
    assert [s[0], s[1], s[2], s[3]] + [s[4]] == s;
  }

  /** From where nothing was found on, the statements insert or raise. */
  lemma InsertsAtOnce(limits: Limits, r: SetRequest, o: Outside, w: World, before: seq<LogOp>)
    requires FieldKey(r.owner, r.write.key) !in w.db.fields.rows
    ensures var b := CheckRoom(limits, r, w, NOTHING);
            var after := InsertField(w.db, limits, r, o, before);
            if b.None? then after.RolledBack?
            else
              var c := WriteRow(r, o, b.value.0, b.value.1);
              if c.None? then after.RolledBack?
              else
                var d := WriteIndex(r, c.value.0, c.value.1);
                && d.Some? && after.Committed?
                && var e := WriteEvent(limits, r, o, d.value.0, d.value.1);
                   e.Some? && |after.ops| == |before| + 1 && after.ops[|before|].Say?
                   && e.value.0 == World(after.db, Spoken(w.full, after.ops[|before|].record.event),
                                         Remembered(w.hist, after.ops[|before|].record.event,
                                                    after.ops[|before|].record.docid), w.deleted)
  {
  }

  /** And from where a row was, they revise it, leave it, or raise. */
  lemma RevisesAtOnce(limits: Limits, r: SetRequest, o: Outside, w: World)
    requires FieldKey(r.owner, r.write.key) in w.db.fields.rows
    ensures var h := NOTHING.(found := Some(w.db.fields.rows[FieldKey(r.owner, r.write.key)]));
            var b := CheckRoom(limits, r, w, h);
            var after := ReviseField(w.db, limits, r, o);
            if b.None? then after.RolledBack?
            else
              var c := WriteRow(r, o, b.value.0, b.value.1);
              && c.Some? && after.Committed?
              && var d := WriteIndex(r, c.value.0, c.value.1);
                 d.Some?
                 && var e := WriteEvent(limits, r, o, d.value.0, d.value.1);
                    e.Some? && e.value.0
                        == World(after.db, FullAfter(w.full, after.ops), HistAfter(w.hist, after.ops), w.deleted)
  {
    var after := ReviseField(w.db, limits, r, o);
    if after.Committed? && after.ops != [] {
      OneOp(w.full, w.hist, after.ops[0]);
      assert after.ops == [after.ops[0]];
    }
  }

  /** The five statements are the machine's transaction, or raise where it is refused. */
  lemma SetIsTheCommand(limits: Limits, r: SetRequest, o: Outside, w: World)
    ensures var done := SetAtOnce(limits, r, o, w);
            if SetField(w.db, limits, r, o).RolledBack? then done.None?
            else done.Some? && done.value.0 == Next(w, limits, SetFieldCmd(r, o))
  {
    var k := FieldKey(r.owner, r.write.key);
    if k !in w.db.fields.rows {
      InsertsAtOnce(limits, r, o, w, []);
      var after := InsertField(w.db, limits, r, o, []);
      if after.Committed? {
        OneOp(w.full, w.hist, after.ops[0]);
        assert after.ops == [after.ops[0]];
      }
    } else if w.db.fields.rows[k].PastDue(o.now) {
      ReplacePastDueShape(w, limits, r, o);
      var w1 := WithFieldsDestroyed(w, {k});
      var before := [Strike(Scopes(w.db.fields.rows, FieldNoun, {k}))];
      InsertsAtOnce(limits, r, o, w1, before);
      var after := InsertField(w1.db, limits, r, o, before);
      if after.Committed? { OneOp(w1.full, w1.hist, after.ops[1]); }
    } else {
      RevisesAtOnce(limits, r, o, w);
      SettingIsRevising(w, limits, r, o);
    }
  }

  lemma SetJobIsTransaction(u: Unicode, limits: Limits, id: nat, r: SetRequest, o: Outside)
    requires VettedField(u, r.write)
    ensures StoreJob(u, limits, SetJob(limits, id, r, o))
  {
    var job := SetJob(limits, id, r, o);
    forall c: Conn<World>
      ensures Whole(job, c).0.db == c.db || IsTransaction(u, limits, c.db, Whole(job, c).0.db)
    {
      if c.open {
        ExecutesAtOnce(limits, r, o, c.db);
        SetIsTheCommand(limits, r, o, c.db);
        assert Possible(u, c.db.db, SetFieldCmd(r, o));
      }
    }
  }

  // ---- sweeping, and everything else ---------------------------------------------------------------

  /** The SELECT and the loop of deletes: what is destroyed is picked inside the transaction. */
  ghost function SweepFieldsJob(id: nat, now: Instant, limit: int): Job<World, Hand> {
    Job(id, Transaction,
        [(w: World, h: Hand) => Some((w, h.(fields := OldestOf(w.db.fields.rows, now, limit)))),
         (w: World, h: Hand) => Some((WithFieldsDestroyed(w, h.fields), h))],
        NOTHING)
  }

  ghost function SweepNotesJob(id: nat, now: Instant, limit: int): Job<World, Hand> {
    Job(id, Transaction,
        [(w: World, h: Hand) => Some((w, h.(notes := OldestOf(w.db.notes.rows, now, limit)))),
         (w: World, h: Hand) => Some((WithNotesDestroyed(w, h.notes), h))],
        NOTHING)
  }

  /** Any other transaction, as one step of the machine. */
  function CommandJob(limits: Limits, id: nat, c: Command): Job<World, Hand> {
    Job(id, Transaction, [(w: World, h: Hand) => Some((Next(w, limits, c), h))], NOTHING)
  }

  lemma ExecutesOne(a: WorldStatement, w: World, h: Hand)
    ensures Execute([a], w, h) == a(w, h)
  {
    ExecutesOneMore([], a, w, h);
    assert [] + [a] == [a];
  }

  lemma ExecutesTwo(a: WorldStatement, b: WorldStatement, w: World, h: Hand)
    ensures Execute([a, b], w, h) == if a(w, h).None? then None else b(a(w, h).value.0, a(w, h).value.1)
  {
    ExecutesOne(a, w, h);
    ExecutesOneMore([a], b, w, h);
    assert [a] + [b] == [a, b];
  }

  lemma SweepFieldsJobIsTransaction(u: Unicode, limits: Limits, id: nat, now: Instant, limit: int)
    ensures StoreJob(u, limits, SweepFieldsJob(id, now, limit))
  {
    var job := SweepFieldsJob(id, now, limit);
    forall c: Conn<World>
      ensures Whole(job, c).0.db == c.db || IsTransaction(u, limits, c.db, Whole(job, c).0.db)
    {
      if c.open {
        var picked := OldestOf(c.db.db.fields.rows, now, limit);
        ExecutesTwo(job.statements[0], job.statements[1], c.db, NOTHING);
        assert job.statements == [job.statements[0], job.statements[1]];
        PurgingFieldsIsDestroying(c.db, limits, now, limit, picked);
        assert Possible(u, c.db.db, PurgeFieldsCmd(now, limit, picked));
      }
    }
  }

  lemma SweepNotesJobIsTransaction(u: Unicode, limits: Limits, id: nat, now: Instant, limit: int)
    ensures StoreJob(u, limits, SweepNotesJob(id, now, limit))
  {
    var job := SweepNotesJob(id, now, limit);
    forall c: Conn<World>
      ensures Whole(job, c).0.db == c.db || IsTransaction(u, limits, c.db, Whole(job, c).0.db)
    {
      if c.open {
        var picked := OldestOf(c.db.db.notes.rows, now, limit);
        ExecutesTwo(job.statements[0], job.statements[1], c.db, NOTHING);
        assert job.statements == [job.statements[0], job.statements[1]];
        PurgingNotesIsDestroying(c.db, limits, now, limit, picked);
        assert Possible(u, c.db.db, PurgeNotesCmd(now, limit, picked));
      }
    }
  }

  ghost predicate AlwaysPossible(u: Unicode, c: Command) {
    forall t :: Possible(u, t, c)
  }

  lemma CommandJobIsTransaction(u: Unicode, limits: Limits, id: nat, c: Command)
    requires AlwaysPossible(u, c)
    ensures StoreJob(u, limits, CommandJob(limits, id, c))
  {
    var job := CommandJob(limits, id, c);
    forall conn: Conn<World>
      ensures Whole(job, conn).0.db == conn.db || IsTransaction(u, limits, conn.db, Whole(job, conn).0.db)
    {
      if conn.open {
        ExecutesOne(job.statements[0], conn.db, NOTHING);
        assert job.statements == [job.statements[0]] && Possible(u, conn.db.db, c);
      }
    }
  }

  lemma {:induction false} ReadsLeaveTheDatabase(statements: seq<WorldStatement>, w: World, h: Hand)
    requires forall i, s, v :: 0 <= i < |statements| ==> var r := statements[i](s, v); r.Some? ==> r.value.0 == s
    ensures Execute(statements, w, h).Some? ==> Execute(statements, w, h).value.0 == w
  {
    if statements != [] {
      var n := |statements| - 1;
      assert forall i :: 0 <= i < n ==> statements[..n][i] == statements[i];
      ReadsLeaveTheDatabase(statements[..n], w, h);
    }
  }

  lemma ReadIsStoreJob(u: Unicode, limits: Limits, job: Job<World, Hand>)
    requires job.mode.Closing? || (job.mode.Reading? && ReadOnly(job))
    ensures StoreJob(u, limits, job)
  {
    forall c: Conn<World> ensures Whole(job, c).0.db == c.db {
      if job.mode.Reading? && c.open { ReadsLeaveTheDatabase(job.statements, c.db, job.hand); }
    }
  }

  // ---- any schedule of them ---------------------------------------------------------------------------

  /** Everything that is ever submitted: a read, the close, a vetted write of a field, a sweep, or one
      of the other transactions with vetted texts. */
  ghost predicate FromTheStores(u: Unicode, limits: Limits, job: Job<World, Hand>) {
    || job.mode.Closing?
    || (job.mode.Reading? && ReadOnly(job))
    || (exists r: SetRequest, o: Outside :: VettedField(u, r.write) && job == SetJob(limits, job.id, r, o))
    || (exists now, limit :: job == SweepFieldsJob(job.id, now, limit))
    || (exists now, limit :: job == SweepNotesJob(job.id, now, limit))
    || (exists c :: AlwaysPossible(u, c) && job == CommandJob(limits, job.id, c))
  }

  lemma FromTheStoresIsStoreJob(u: Unicode, limits: Limits, job: Job<World, Hand>)
    requires FromTheStores(u, limits, job)
    ensures StoreJob(u, limits, job)
  {
    if job.mode.Closing? || (job.mode.Reading? && ReadOnly(job)) {
      ReadIsStoreJob(u, limits, job);
    } else if r: SetRequest, o: Outside :| VettedField(u, r.write) && job == SetJob(limits, job.id, r, o) {
      SetJobIsTransaction(u, limits, job.id, r, o);
    } else if now, limit :| job == SweepFieldsJob(job.id, now, limit) {
      SweepFieldsJobIsTransaction(u, limits, job.id, now, limit);
    } else if now, limit :| job == SweepNotesJob(job.id, now, limit) {
      SweepNotesJobIsTransaction(u, limits, job.id, now, limit);
    } else {
      var c :| AlwaysPossible(u, c) && job == CommandJob(limits, job.id, c);
      CommandJobIsTransaction(u, limits, job.id, c);
    }
  }

  /** However the stores' callables, their statements, raises and cancellations fall between one
      another, the store is good at every moment it is committed, and every callable, each read
      among them, starts from a good one. */
  lemma StoresStayGood(u: Unicode, limits: Limits, w: World, events: seq<Occurrence<World, Hand>>)
    requires Good(u, w, limits) && Schedule(Fresh<World, Hand>(w), events)
    requires forall i :: 0 <= i < |Play(Fresh<World, Hand>(w), events).submitted| ==>
               FromTheStores(u, limits, Play(Fresh<World, Hand>(w), events).submitted[i])
    ensures var st := Play(Fresh<World, Hand>(w), events);
            && Good(u, OnDisk(st), limits)
            && forall i :: 0 <= i <= |st.ran| ==> Good(u, Fold(Conn(w, true), st.ran[..i]).db, limits)
  {
    var st := Play(Fresh<World, Hand>(w), events);
    forall i | 0 <= i < |st.submitted| ensures StoreJob(u, limits, st.submitted[i]) {
      FromTheStoresIsStoreJob(u, limits, st.submitted[i]);
    }
    GoodUnderAnySchedule(u, limits, w, events);
  }
}
