/** The field store, statement by statement, proved to compute the field transactions. */
module FieldStore {
  import opened Wrappers
  import opened Tables
  import opened Erasure
  import opened Storage
  import opened Transactions
  import opened Text
  import opened Json
  import opened Keys
  import opened Secrets
  import opened FieldValues
  import opened Projection
  import opened Vetting
  import opened Due
  import opened Paging
  import opened Query
  import opened Search

  /** A field as a caller supplies it. */
  datatype RawField = RawField(owner: Owner, key: string, description: string, value: Json, author: Author,
                               pinned: Option<bool>, ceiling: Option<int>, logValues: bool)

  function SetRaw(u: Unicode, valueLimits: ValueLimits, t: Tables, limits: Limits, raw: RawField,
                  o: Outside): Outcome<FieldRow> {
    var write := VetField(u, valueLimits, raw.key, raw.description, raw.value);
    if write.Failure? then RolledBack(write.error)
    else SetField(t, limits, SetRequest(raw.owner, write.value, raw.author, raw.pinned, raw.ceiling, raw.logValues), o)
  }

  function ForgetRaw(u: Unicode, t: Tables, limits: Limits, rawKey: string, r: ForgetRequest, o: Outside): Outcome<()> {
    var key := NormalizeKey(u, rawKey);
    if key.Failure? then RolledBack(key.error) else ForgetField(t, limits, r.(subject := key.value), o)
  }

  datatype FieldFilters = FieldFilters(source: Option<Source>, pinned: Option<bool>, keyPrefix: Option<string>,
                                       keys: seq<string>, since: Option<Instant>, until: Option<Instant>,
                                       includeForgotten: bool)

  /** The filters with every key in them normalised, as the query uses them. */
  datatype FieldConditions = FieldConditions(filters: FieldFilters, prefix: Option<string>, keys: set<string>)

  function NormalizeAll(u: Unicode, raw: seq<string>): Result<set<string>, Error> {
    if raw == [] then Success({})
    else
      var first :- NormalizeKey(u, raw[0]);
      var rest :- NormalizeAll(u, raw[1..]);
      Success({first} + rest)
  }

  function Conditions(u: Unicode, f: FieldFilters): (r: Result<FieldConditions, Error>)
    ensures r.Failure? ==> r.error == InvalidFieldKey
  {
    var prefix := if f.keyPrefix.None? then Success(None)
                  else
                    var p := FilterPrefix(u, f.keyPrefix.value);
                    if p.Failure? then Failure(p.error) else Success(Some(p.value));
    if prefix.Failure? then Failure(InvalidFieldKey)
    else
      var keys := NormalizeAll(u, f.keys);
      if keys.Failure? then Failure(InvalidFieldKey) else Success(FieldConditions(f, prefix.value, keys.value))
  }

  function NoFieldFilters(includeForgotten: bool): FieldFilters {
    FieldFilters(None, None, None, [], None, None, includeForgotten)
  }

  function AllFields(includeForgotten: bool): FieldConditions {
    FieldConditions(NoFieldFilters(includeForgotten), None, {})
  }

  /** The WHERE clause of a listing. */
  predicate Satisfies(row: FieldRow, owner: Owner, c: FieldConditions) {
    && row.owner == owner
    && (c.filters.includeForgotten || row.Live())
    && (c.filters.source.Some? ==> row.author.source == c.filters.source.value)
    && (c.filters.pinned.Some? ==> row.pinned == c.filters.pinned.value)
    && (c.prefix.Some? ==> InPrefixRange(row.subject, c.prefix.value))
    && (c.filters.keys != [] ==> row.subject in c.keys)
    && (c.filters.since.Some? ==> row.updatedAt >= c.filters.since.value)
    && (c.filters.until.Some? ==> row.updatedAt < c.filters.until.value)
  }

  function FieldPositions(rows: map<FieldKey, FieldRow>, owner: Owner, c: FieldConditions): set<Position> {
    set k | k in rows && Satisfies(rows[k], owner, c) :: Position(rows[k].updatedAt, k.key)
  }

  class FieldStore {
    const conn: Connection
    const events: SqlEventLog
    const limits: Limits
    const valueLimits: ValueLimits
    const u: Unicode

    constructor (conn: Connection, events: SqlEventLog, limits: Limits, valueLimits: ValueLimits, u: Unicode)
      requires events.conn == conn && events.maxEntries == limits.maxEntries
      ensures this.conn == conn && this.limits == limits && this.valueLimits == valueLimits && this.u == u && Wired()
    {
      this.conn, this.events, this.limits, this.valueLimits, this.u := conn, events, limits, valueLimits, u;
    }

    ghost predicate Wired() {
      events.conn == conn && events.maxEntries == limits.maxEntries
    }

    /** Create or replace one field: everything the caller supplied is vetted, and then the
        write is one transaction. */
    method Set(raw: RawField, o: Outside) returns (out: Result<FieldRow, Error>)
      requires Wired() && conn.Valid() && conn.saved == None
      modifies conn
      ensures conn.Valid() && conn.saved == None
      ensures conn.Contents()
                == SetRaw(u, valueLimits, old(conn.Contents()), limits, raw, o).After(old(conn.Contents()))
      ensures out == SetRaw(u, valueLimits, old(conn.Contents()), limits, raw, o).Reply()
    {
      var key :- NormalizeKey(u, raw.key);
      var description :- Trimmed(u, raw.description, MAX_DESCRIPTION_LENGTH, InvalidFieldKey);
      var valueJson :- ValidateValue(raw.value, valueLimits);
      var valueType := DeriveValueType(raw.value);
      var _ :- RefuseIfCredential(u, valueJson);
      var _ :- RefuseIfCredential(u, description);
      var words := CollectWords(raw.value);
      var searchable := key + " " + description + " " + Join(words, " ");
      var write := FieldWrite(key, description, valueJson, valueType, searchable);
      assert VetField(u, valueLimits, raw.key, raw.description, raw.value) == Success(write);
      out := Transact(SetRequest(raw.owner, write, raw.author, raw.pinned, raw.ceiling, raw.logValues), o);
    }

    method Transact(r: SetRequest, o: Outside) returns (out: Result<FieldRow, Error>)
      requires Wired() && conn.Valid() && conn.saved == None
      modifies conn
      ensures conn.Valid() && conn.saved == None
      ensures conn.Contents() == SetField(old(conn.Contents()), limits, r, o).After(old(conn.Contents()))
      ensures out == SetField(old(conn.Contents()), limits, r, o).Reply()
    {
      SetKeepsSound(conn.Contents(), limits, r, o);
      conn.Begin();
      out := SetWrite(r, o);
      if out.Failure? { conn.Rollback(); } else { conn.Commit(); }
    }

    method SetWrite(r: SetRequest, o: Outside) returns (out: Result<FieldRow, Error>)
      requires Wired() && conn.Valid()
      modifies conn
      ensures conn.saved == old(conn.saved)
      ensures out == SetField(old(conn.Contents()), limits, r, o).Reply()
      ensures out.Success? ==>
                conn.Contents() == SetField(old(conn.Contents()), limits, r, o).After(old(conn.Contents()))
    {
      var k := FieldKey(r.owner, r.write.key);
      ghost var before := [];
      if k in conn.fields && conn.fields[k].PastDue(o.now) {
        before := [Strike(Scopes(conn.fields, FieldNoun, {k}))];
        var _ := Destroy([k]);
        assert {k} == ToSet([k]);
      }
      if k in conn.fields {
        out := Revise(r, o);
      } else {
        out := Insert(r, o, before);
      }
    }

    method Insert(r: SetRequest, o: Outside, ghost before: seq<LogOp>) returns (out: Result<FieldRow, Error>)
      requires Wired() && conn.Valid() && FieldKey(r.owner, r.write.key) !in conn.fields
      modifies conn
      ensures conn.saved == old(conn.saved)
      ensures out == InsertField(old(conn.Contents()), limits, r, o, before).Reply()
      ensures out.Success? ==>
        conn.Contents() == InsertField(old(conn.Contents()), limits, r, o, before).After(old(conn.Contents()))
    {
      var k := FieldKey(r.owner, r.write.key);
      var pinned := r.pinned == Some(true);
      var refusal := CheckCaps(r.owner, true, pinned, Ceiling(r.ceiling, limits.maxPinnedFields));
      if refusal.Some? {
        return Failure(refusal.value);
      }
      var docid := conn.NextFieldSeq();
      if r.owner !in conn.personas || FieldIdTaken(conn.fields, o.freshId) {
        return Failure(ConstraintFailed);
      }
      var row := Row(r.owner, r.write.key, docid,
                     FieldContent(o.freshId, r.write.description, r.write.valueJson, r.write.valueType),
                     r.author, pinned, 1, o.now, o.now, None, None);
      conn.fields := conn.fields[k := row];
      conn.IndexField(docid, r.write.searchable);
      events.Append(Event(0, o.at, r.owner, FieldSet, r.write.key, SetAs(r.write.valueType), r.author, None));
      out := Success(conn.fields[k]);
    }

    method Revise(r: SetRequest, o: Outside) returns (out: Result<FieldRow, Error>)
      requires Wired() && conn.Valid() && FieldKey(r.owner, r.write.key) in conn.fields
      modifies conn
      ensures conn.saved == old(conn.saved)
      ensures out == ReviseField(old(conn.Contents()), limits, r, o).Reply()
      ensures out.Success? ==>
        conn.Contents() == ReviseField(old(conn.Contents()), limits, r, o).After(old(conn.Contents()))
    {
      var k := FieldKey(r.owner, r.write.key);
      var existing := conn.fields[k];
      var wasForgotten := existing.forgottenAt.Some?;
      var willBePinned := if r.pinned.None? then existing.pinned else r.pinned.value;
      var same :=
        && existing.content.valueJson == r.write.valueJson
        && existing.content.description == r.write.description
        && existing.pinned == willBePinned
        && !wasForgotten;
      if same {
        return Success(existing);
      }
      if wasForgotten || (willBePinned && !existing.pinned) {
        var refusal := CheckCaps(r.owner, wasForgotten, willBePinned && !existing.pinned,
                                 Ceiling(r.ceiling, limits.maxPinnedFields));
        if refusal.Some? {
          return Failure(refusal.value);
        }
      }
      var revised := existing.(
        content := FieldContent(existing.content.fieldId, r.write.description, r.write.valueJson, r.write.valueType),
        author := r.author, pinned := willBePinned, revision := existing.revision + 1, updatedAt := o.now,
        forgottenAt := None, purgeAfter := None);
      Rewrite(k, revised, r.write.searchable);
      events.Append(Event(0, o.at, r.owner, if wasForgotten then FieldSet else FieldRevised, r.write.key,
                          RevisionNumber(existing.revision + 1), r.author,
                          if r.logValues && existing.content.valueJson != r.write.valueJson
                          then Some(existing.content.valueJson) else None));
      out := Success(conn.fields[k]);
    }

    /** UPDATE one row, and its words with it. */
    method Rewrite(k: FieldKey, row: FieldRow, text: string)
      requires k in conn.fields && row.docid == conn.fields[k].docid
      modifies conn`fields, conn`fieldsFts
      ensures conn.Contents() == WithFields(old(conn.Contents()), Rewritten(old(conn.Contents()).fields, k, row, text))
    {
      conn.fields := conn.fields[k := row];
      Unindex(k);
      conn.IndexField(row.docid, text);
    }

    /** Forget one field: keep it, schedule it, or destroy it. */
    method Forget(rawKey: string, r: ForgetRequest, o: Outside) returns (out: Result<(), Error>)
      requires Wired() && conn.Valid() && conn.saved == None
      modifies conn
      ensures conn.Valid() && conn.saved == None
      ensures conn.Contents() == ForgetRaw(u, old(conn.Contents()), limits, rawKey, r, o).After(old(conn.Contents()))
      ensures out == ForgetRaw(u, old(conn.Contents()), limits, rawKey, r, o).Reply()
    {
      var key :- NormalizeKey(u, rawKey);
      out := TransactForget(r.(subject := key), o);
    }

    method TransactForget(r: ForgetRequest, o: Outside) returns (out: Result<(), Error>)
      requires Wired() && conn.Valid() && conn.saved == None
      modifies conn
      ensures conn.Valid() && conn.saved == None
      ensures conn.Contents() == ForgetField(old(conn.Contents()), limits, r, o).After(old(conn.Contents()))
      ensures out == ForgetField(old(conn.Contents()), limits, r, o).Reply()
    {
      var purgeAfter :- r.erasure.PurgeAfter(o.now);
      ForgetKeepsSound(conn.Contents(), limits, r, o);
      conn.Begin();
      out := ForgetWrite(r, o, purgeAfter);
      if out.Failure? { conn.Rollback(); } else { conn.Commit(); }
    }

    /** The sweeper's half of a grace period: up to `limit` due fields, oldest-due first, in
        one transaction. */
    method PurgeDue(now: Instant, limit: int) returns (gone: nat, ghost picked: set<FieldKey>)
      requires Wired() && conn.Valid() && conn.saved == None
      modifies conn
      ensures conn.Valid() && conn.saved == None
      ensures OldestDue(old(conn.Contents()).fields.rows, now, limit, picked)
      ensures conn.Contents() == PurgeFields(old(conn.Contents()), picked).After(old(conn.Contents()))
      ensures gone == |picked|
    {
      conn.Begin();
      var due := SelectDue(conn.fields, now, limit);
      picked := ToSet(due);
      assert forall k :: k in due ==> k in ToSet(due);
      gone := Destroy(due);
      conn.Commit();
    }

    // ---- reading ----------------------------------------------------------------------

    method Get(owner: Owner, rawKey: string, includeForgotten: bool) returns (out: Result<Option<FieldRow>, Error>)
      ensures NormalizeKey(u, rawKey).Failure? ==> out == Failure(InvalidFieldKey)
      ensures NormalizeKey(u, rawKey).Success? ==>
        var k := FieldKey(owner, NormalizeKey(u, rawKey).value);
        out == Success(if k in conn.fields && (includeForgotten || conn.fields[k].Live()) then Some(conn.fields[k])
                       else None)
    {
      var key :- NormalizeKey(u, rawKey);
      var k := FieldKey(owner, key);
      if k in conn.fields && (includeForgotten || conn.fields[k].forgottenAt.None?) {
        return Success(Some(conn.fields[k]));
      }
      return Success(None);
    }

    /** One page of this persona's fields, most recently changed first. */
    method ListForPersona(owner: Owner, filters: FieldFilters, limit: nat, cursor: Option<Position>)
        returns (out: Result<Page, Error>)
      requires limit >= 1
      ensures Conditions(u, filters).Failure? ==> out == Failure(InvalidFieldKey)
      ensures Conditions(u, filters).Success? ==>
        out.Success? && IsPage(FieldPositions(conn.fields, owner, Conditions(u, filters).value), cursor, limit,
                               out.value)
    {
      var conditions :- Conditions(u, filters);
      var page := FetchPage(FieldPositions(conn.fields, owner, conditions), cursor, limit);
      out := Success(page);
    }

    /** The ranks are what `bm25` computes for this query over the whole index. */
    method Search(account: string, query: string, profile: Option<string>, rank: FieldKey -> real, limit: int)
        returns (out: Result<seq<FieldKey>, SearchError>)
      ensures MatchQuery(u, query).Failure? ==> out == Failure(InvalidSearch)
      ensures MatchQuery(u, query).Success? ==> out.Success?
      ensures MatchQuery(u, query).Success? ==>
        Answers(Hits(u, conn.Contents().fields, MatchQuery(u, query).value, account, profile), rank, limit,
                out.value)
    {
      var expression :- MatchQuery(u, query);
      var found := TakeBest(Hits(u, conn.Contents().fields, expression, account, profile), rank, limit);
      out := Success(found);
    }

    method ForgetWrite(r: ForgetRequest, o: Outside, purgeAfter: Option<Instant>) returns (out: Result<(), Error>)
      requires Wired() && conn.Valid() && r.erasure.PurgeAfter(o.now) == Success(purgeAfter)
      modifies conn
      ensures conn.saved == old(conn.saved)
      ensures out == ForgetField(old(conn.Contents()), limits, r, o).Reply()
      ensures out.Success? ==>
        conn.Contents() == ForgetField(old(conn.Contents()), limits, r, o).After(old(conn.Contents()))
    {
      var k := FieldKey(r.owner, r.subject);
      if k !in conn.fields || conn.fields[k].forgottenAt.Some? {
        return Failure(FieldNotFound);
      }
      conn.fields := conn.fields[k := conn.fields[k].(forgottenAt := Some(o.now), updatedAt := o.now,
                                                      purgeAfter := purgeAfter)];
      Unindex(k);
      events.Append(Event(0, o.at, r.owner, FieldForgotten, r.subject, r.erasure.Describe(purgeAfter), r.author, None));
      if r.erasure.DestroysNow() {
        var _ := Destroy([k]);
        assert {k} == ToSet([k]);
      }
      out := Success(());
    }

    /** Destroy fields in the caller's transaction: the rows, their index entries, and the
        values the event log kept about them. */
    method Destroy(targets: seq<FieldKey>) returns (gone: nat)
      requires Wired() && conn.Valid() && forall k :: k in targets ==> k in conn.fields
      modifies conn
      ensures conn.saved == old(conn.saved) && conn.Valid()
      ensures conn.Contents() == DestroyFields(old(conn.Contents()), ToSet(targets))
      ensures gone == |targets|
    {
      ghost var t := conn.Contents();
      var i := 0;
      DestroyNoFields(t);
      assert ToSet(targets[..0]) == {};
      while i < |targets|
        invariant 0 <= i <= |targets|
        invariant conn.saved == old(conn.saved)
        invariant conn.Contents() == DestroyFields(t, ToSet(targets[..i]))
      {
        conn.DeleteField(targets[i]);
        events.StripValues(targets[i].owner, FieldNoun, [targets[i].key]);
        assert (set s | s in [targets[i].key] :: AboutRow(targets[i].owner, FieldNoun, s))
            == {AboutRow(targets[i].owner, FieldNoun, targets[i].key)};
        DestroyOneMoreField(t, ToSet(targets[..i]), targets[i]);
        assert ToSet(targets[..i + 1]) == ToSet(targets[..i]) + {targets[i]};
        i := i + 1;
      }
      assert targets[..i] == targets;
      gone := |targets|;
    }

    method Unindex(k: FieldKey)
      requires k in conn.fields
      modifies conn`fieldsFts
      ensures conn.fieldsFts == old(conn.fieldsFts) - {conn.fields[k].docid}
    {
      conn.fieldsFts := conn.fieldsFts - {conn.fields[k].docid};
    }

    method CheckCaps(owner: Owner, adding: bool, addingPinned: bool, maxPinned: int) returns (refusal: Option<Error>)
      ensures refusal == CapError(conn.fields, owner, adding, addingPinned, limits.maxFields, maxPinned)
    {
      if adding {
        var live := |LiveKeys(conn.fields, owner)|;
        if live >= limits.maxFields {
          return Some(LimitExceeded(RowsCap));
        }
      }
      if addingPinned {
        var held := |PinnedKeys(conn.fields, owner)|;
        if held >= maxPinned {
          return Some(LimitExceeded(PinnedCap));
        }
      }
      return None;
    }
  }

  lemma SetKeepsSound(t: Tables, limits: Limits, r: SetRequest, o: Outside)
    requires Sound(t)
    ensures Sound(SetField(t, limits, r, o).After(t))
  {
    var k := FieldKey(r.owner, r.write.key);
    var t' := SetField(t, limits, r, o).After(t);
    assert forall k' ::
             k' in t'.fields.rows ==> k' == k || (k' in t.fields.rows && t'.fields.rows[k'] == t.fields.rows[k']);
  }

  lemma ForgetKeepsSound(t: Tables, limits: Limits, r: ForgetRequest, o: Outside)
    requires Sound(t)
    ensures Sound(ForgetField(t, limits, r, o).After(t))
  {
    var k := FieldKey(r.owner, r.subject);
    var t' := ForgetField(t, limits, r, o).After(t);
    assert forall k' ::
             k' in t'.fields.rows ==> k' == k || (k' in t.fields.rows && t'.fields.rows[k'] == t.fields.rows[k']);
  }

  lemma DestroyNoFields(t: Tables)
    ensures DestroyFields(t, {}) == t
  {
    StruckByNothing(t.log.events);
    assert Docids(t.fields.rows, {}) == {};
    assert t.fields.rows - {} == t.fields.rows && t.fields.index - {} == t.fields.index;
    assert Scopes(t.fields.rows, FieldNoun, {}) == {};
  }

  lemma DestroyOneMoreField(t: Tables, ks: set<FieldKey>, k: FieldKey)
    requires Sound(t) && k in t.fields.rows
    ensures DestroyFields(t, ks + {k}).fields == Without(DestroyFields(t, ks).fields, {k})
    ensures DestroyFields(t, ks + {k}).log.events
         == Struck(DestroyFields(t, ks).log.events, {AboutRow(k.owner, FieldNoun, k.key)})
  {
    WithoutOneMore(t.fields, ks, k);
    StruckTwice(t.log.events, Scopes(t.fields.rows, FieldNoun, ks), {AboutRow(k.owner, FieldNoun, k.key)});
    assert Scopes(t.fields.rows, FieldNoun, ks + {k})
        == Scopes(t.fields.rows, FieldNoun, ks) + {AboutRow(k.owner, FieldNoun, k.key)};
  }
}
