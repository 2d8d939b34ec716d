/** From a write to a search: what was written is found by every word it says, wherever in the
    value that stands, and once it is forgotten by none. */
module Findable {
  import opened Wrappers
  import opened Text
  import opened Json
  import opened Tables
  import opened Transactions
  import opened FieldValues
  import opened Keys
  import opened Vetting
  import opened Query
  import opened Projection
  import opened Search
  import opened Machine
  import opened Reachable
  import opened FieldStore
  import opened NoteStore
  import opened ReadBack
  import opened Answered
  import opened Leaves
  import opened Shapes

  lemma NextIsReachable(u: Unicode, w: World, limits: Limits, c: Command)
    requires IsReachable(u, w, limits) && Possible(u, w.db, c)
    ensures IsReachable(u, Next(w, limits, c), limits)
  {
    forall worlds: iset<World> | Closed(u, limits, worlds) ensures Next(w, limits, c) in worlds {
      assert w in worlds;
    }
  }

  // ---- fields -----------------------------------------------------------------------------------

  function Written(u: Unicode, valueLimits: ValueLimits, raw: RawField): SetRequest
    requires VetField(u, valueLimits, raw.key, raw.description, raw.value).Success?
  {
    SetRequest(raw.owner, VetField(u, valueLimits, raw.key, raw.description, raw.value).value, raw.author, raw.pinned,
               raw.ceiling, raw.logValues)
  }

  /** After any accepted write, from any reachable state, a search over the account or the profile
      finds the field exactly if a word typed is a word of its key, of its description, or of
      anything the caller's value says, at any depth. */
  lemma WrittenFieldIsFound(u: Unicode, valueLimits: ValueLimits, w: World, limits: Limits, raw: RawField, o: Outside,
                            query: string, profile: Option<string>)
    requires u.Facts() && IsReachable(u, w, limits) && Decoded(raw.value) && MatchQuery(u, query).Success?
    requires SetRaw(u, valueLimits, w.db, limits, raw, o).Committed?
    requires profile == None || profile == Some(raw.owner.profile)
    ensures NormalizeKey(u, raw.key).Success?
    ensures var t := SetRaw(u, valueLimits, w.db, limits, raw, o).db;
            var k := FieldKey(raw.owner, NormalizeKey(u, raw.key).value);
            k in t.fields.rows
            && (k in Hits(u, t.fields, MatchQuery(u, query).value, raw.owner.account, profile) <==>
                  FieldSays(u, query, k.key, t.fields.rows[k].content.description, raw.value))
  {
    AcceptedParts(u, valueLimits, raw.key, raw.description, raw.value);
    VettingIsEnough(u, valueLimits, raw.key, raw.description, raw.value);
    var r := Written(u, valueLimits, raw);
    var w' := Next(w, limits, SetFieldCmd(r, o));
    NextIsReachable(u, w, limits, SetFieldCmd(r, o));
    ReachableIsGood(u, w, limits);
    SetStoresWhatItSays(w.db, limits, r, o);
    var k := FieldKey(raw.owner, r.write.key);
    SearchMatchesExactly(u, w', limits, query, raw.owner.account, profile, k);
    SaysAsWritten(u, query, r.write, raw.value);
  }

  /** The stored form of a vetted value says what the caller's says. */
  lemma SaysAsWritten(u: Unicode, query: string, write: FieldWrite, value: Json)
    requires u.Facts() && VettedField(u, write) && write.searchable == FieldText(write.key, write.description, value)
    ensures Loads(write.valueJson).Some?
    ensures FieldSays(u, query, write.key, write.description, Loads(write.valueJson).value)
            <==> FieldSays(u, query, write.key, write.description, value)
  {
    FieldHoldsIsSays(u, query, write.key, write.description, value);
    FieldHoldsIsSays(u, query, write.key, write.description, Loads(write.valueJson).value);
  }

  /** Once a field is forgotten no search finds it, whatever was chosen to become of it. */
  lemma ForgottenFieldIsNotFound(u: Unicode, w: World, limits: Limits, r: ForgetRequest, o: Outside, query: string,
                                 account: string, profile: Option<string>)
    requires u.Facts() && IsReachable(u, w, limits) && MatchQuery(u, query).Success?
    requires ForgetField(w.db, limits, r, o).Committed?
    ensures FieldKey(r.owner, r.subject) !in
              Hits(u, ForgetField(w.db, limits, r, o).db.fields, MatchQuery(u, query).value, account, profile)
  {
    var w' := Next(w, limits, ForgetFieldCmd(r, o));
    NextIsReachable(u, w, limits, ForgetFieldCmd(r, o));
    SearchMatchesExactly(u, w', limits, query, account, profile, FieldKey(r.owner, r.subject));
  }

  // ---- notes ------------------------------------------------------------------------------------

  /** A written note is found exactly by the words of what the caller wrote. */
  lemma WrittenNoteIsFound(u: Unicode, maxChars: int, w: World, limits: Limits, raw: WriteRequest, o: Outside,
                           body: string, query: string, profile: Option<string>)
    requires u.Facts() && IsReachable(u, w, limits) && MatchQuery(u, query).Success?
    requires IsCore(raw.body, u.isSpace, body) && WriteRaw(u, maxChars, w.db, limits, raw, o).Committed?
    requires profile == None || profile == Some(raw.owner.profile)
    ensures o.freshId in Hits(u, WriteRaw(u, maxChars, w.db, limits, raw, o).db.notes, MatchQuery(u, query).value,
                              raw.owner.account, profile)
            <==> SharesWord(u, query, body)
  {
    WriteIsAnswered(u, maxChars, w.db, limits, raw, o, body);
    NoteBodyIsVetted(u, raw.body, maxChars, body);
    RefusedExactly(u, body);
    var c := WriteNoteCmd(raw.(body := body), o);
    NextIsReachable(u, w, limits, c);
    NoteSearchMatchesExactly(u, Next(w, limits, c), limits, query, raw.owner.account, profile, o.freshId);
  }

  lemma ForgottenNoteIsNotFound(u: Unicode, w: World, limits: Limits, r: ForgetRequest, o: Outside, query: string,
                                account: string, profile: Option<string>)
    requires u.Facts() && IsReachable(u, w, limits) && MatchQuery(u, query).Success?
    requires ForgetNote(w.db, limits, r, o).Committed?
    ensures r.subject !in Hits(u, ForgetNote(w.db, limits, r, o).db.notes, MatchQuery(u, query).value, account, profile)
  {
    var w' := Next(w, limits, ForgetNoteCmd(r, o));
    NextIsReachable(u, w, limits, ForgetNoteCmd(r, o));
    NoteSearchMatchesExactly(u, w', limits, query, account, profile, r.subject);
  }
}
