/** Writing the same field again: what counts as the same, and that nothing at all happens. */
module Repeating {
  import opened Wrappers
  import opened Text
  import opened Json
  import opened Tables
  import opened Transactions
  import opened FieldValues
  import opened Keys
  import opened Vetting
  import opened Books
  import opened FieldStore

  /** Two writes that come to the same once they are normalised: the same key, the same
      description, and values that differ at most in the order of object keys. */
  ghost predicate Equivalent(u: Unicode, a: RawField, b: RawField) {
    && a.owner == b.owner
    && NormalizeKey(u, a.key) == NormalizeKey(u, b.key)
    && Trim(a.description, u.isSpace) == Trim(b.description, u.isSpace)
    && SameValue(a.value, b.value)
  }

  predicate LeavesPin(asked: Option<bool>, pinned: bool) {
    asked.Some? ==> asked.value == pinned
  }

  predicate Accepted(u: Unicode, valueLimits: ValueLimits, raw: RawField) {
    VetField(u, valueLimits, raw.key, raw.description, raw.value).Success?
  }

  lemma EquivalentWrites(u: Unicode, valueLimits: ValueLimits, a: RawField, b: RawField)
    requires Decoded(a.value) && Decoded(b.value) && Accepted(u, valueLimits, a) && Accepted(u, valueLimits, b)
    ensures var x := VetField(u, valueLimits, a.key, a.description, a.value).value;
            var y := VetField(u, valueLimits, b.key, b.description, b.value).value;
            Equivalent(u, a, b) <==>
              a.owner == b.owner && x.key == y.key && x.description == y.description && x.valueJson == y.valueJson
  {
    AcceptedParts(u, valueLimits, a.key, a.description, a.value);
    AcceptedParts(u, valueLimits, b.key, b.description, b.value);
    SameTextSameValue(a.value, b.value, valueLimits);
  }

  lemma WrittenRow(t: Tables, limits: Limits, r: SetRequest, o: Outside)
    requires SetField(t, limits, r, o).Committed? && LiveRowsHaveNoTerm(t.fields)
    ensures var after := SetField(t, limits, r, o);
            var k := FieldKey(r.owner, r.write.key);
            && k in after.db.fields.rows && after.db.fields.rows[k] == after.result
            && after.result.Live() && after.result.purgeAfter == None
            && after.result.content.valueJson == r.write.valueJson
            && after.result.content.description == r.write.description
  {
  }

  lemma SameWriteIsNoWrite(t: Tables, limits: Limits, r: SetRequest, o: Outside)
    requires FieldKey(r.owner, r.write.key) in t.fields.rows
    requires var row := t.fields.rows[FieldKey(r.owner, r.write.key)]; FieldUnchanged(row, r) && !row.PastDue(o.now)
    ensures SetField(t, limits, r, o) == Committed(t, t.fields.rows[FieldKey(r.owner, r.write.key)], [])
  {
  }

  /** Whatever a first write did, an equivalent one after it does nothing at all, at any later
      or earlier time: no row, no index entry, no docid, no event. */
  lemma RepeatedSetChangesNothing(u: Unicode, valueLimits: ValueLimits, t: Tables, limits: Limits, a: RawField,
                                  o: Outside, b: RawField, o': Outside)
    requires LiveRowsHaveNoTerm(t.fields) && Decoded(a.value) && Decoded(b.value)
    requires SetRaw(u, valueLimits, t, limits, a, o).Committed? && Accepted(u, valueLimits, b) && Equivalent(u, a, b)
    requires LeavesPin(b.pinned, SetRaw(u, valueLimits, t, limits, a, o).result.pinned)
    ensures var first := SetRaw(u, valueLimits, t, limits, a, o);
            SetRaw(u, valueLimits, first.db, limits, b, o') == Committed(first.db, first.result, [])
  {
    EquivalentWrites(u, valueLimits, a, b);
    var first := SetRaw(u, valueLimits, t, limits, a, o);
    var x := VetField(u, valueLimits, a.key, a.description, a.value).value;
    var y := VetField(u, valueLimits, b.key, b.description, b.value).value;
    WrittenRow(t, limits, SetRequest(a.owner, x, a.author, a.pinned, a.ceiling, a.logValues), o);
    SameWriteIsNoWrite(first.db, limits, SetRequest(b.owner, y, b.author, b.pinned, b.ceiling, b.logValues), o');
  }

  lemma SameWriteExactly(t: Tables, limits: Limits, r: SetRequest, o: Outside)
    requires SetField(t, limits, r, o).Committed? && FieldKey(r.owner, r.write.key) in t.fields.rows
    requires !t.fields.rows[FieldKey(r.owner, r.write.key)].PastDue(o.now)
    ensures SetField(t, limits, r, o).db == t <==> FieldUnchanged(t.fields.rows[FieldKey(r.owner, r.write.key)], r)
  {
    var k := FieldKey(r.owner, r.write.key);
    if !FieldUnchanged(t.fields.rows[k], r) {
      assert SetField(t, limits, r, o).db.fields.rows[k].revision == t.fields.rows[k].revision + 1;
    }
  }

  /** An accepted write to a live field changes the database exactly when the value, the
      description or the pin differs from what is stored. */
  lemma UnchangedExactlyWhenSame(u: Unicode, valueLimits: ValueLimits, t: Tables, limits: Limits, stored: Json,
                                 b: RawField, o: Outside)
    requires Decoded(stored) && ValidateValue(stored, valueLimits).Success? && Decoded(b.value)
    requires Accepted(u, valueLimits, b) && SetRaw(u, valueLimits, t, limits, b, o).Committed?
             && NormalizeKey(u, b.key).Success?
    requires FieldKey(b.owner, NormalizeKey(u, b.key).value) in t.fields.rows
    requires var row := t.fields.rows[FieldKey(b.owner, NormalizeKey(u, b.key).value)];
             row.Live() && !row.PastDue(o.now) && row.content.valueJson == ValidateValue(stored, valueLimits).value
    ensures var row := t.fields.rows[FieldKey(b.owner, NormalizeKey(u, b.key).value)];
            SetRaw(u, valueLimits, t, limits, b, o).db == t <==>
              && SameValue(stored, b.value)
              && row.content.description == Trim(b.description, u.isSpace)
              && LeavesPin(b.pinned, row.pinned)
  {
    AcceptedParts(u, valueLimits, b.key, b.description, b.value);
    SameTextSameValue(stored, b.value, valueLimits);
    var y := VetField(u, valueLimits, b.key, b.description, b.value).value;
    SameWriteExactly(t, limits, SetRequest(b.owner, y, b.author, b.pinned, b.ceiling, b.logValues), o);
  }
}
