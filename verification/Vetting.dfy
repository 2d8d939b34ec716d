/** What happens to a caller's text before any transaction begins: it is normalised, held to
    its limits, and refused if it is credential-shaped. */
module Vetting {
  import opened Wrappers
  import opened Text
  import opened Json
  import opened Tables
  import opened FieldValues
  import opened Projection
  import opened Keys
  import opened Secrets
  import opened Transactions

  const MAX_DESCRIPTION_LENGTH := 200
  const MAX_DISPLAY_NAME_LENGTH := 120
  const MAX_PRONOUNS_LENGTH := 40
  const MAX_SUMMARY_LENGTH := 600

  predicate Clean(u: Unicode, text: string) {
    LooksLikeACredential(u, text).None?
  }

  /** Trimmed, not blank, not too long; each caller has its own error for the rest. */
  function Trimmed(u: Unicode, raw: string, limit: int, error: Error): Result<string, Error> {
    var text := Trim(raw, u.isSpace);
    if text == "" || |text| > limit then Failure(error) else Success(text)
  }

  function VetField(u: Unicode, limits: ValueLimits, rawKey: string, rawDescription: string,
                    value: Json): Result<FieldWrite, Error> {
    var key :- NormalizeKey(u, rawKey);
    var description :- Trimmed(u, rawDescription, MAX_DESCRIPTION_LENGTH, InvalidFieldKey);
    var valueJson :- ValidateValue(value, limits);
    var _ :- RefuseIfCredential(u, valueJson);
    var _ :- RefuseIfCredential(u, description);
    Success(FieldWrite(key, description, valueJson, DeriveValueType(value), FieldText(key, description, value)))
  }

  function VetBody(u: Unicode, raw: string, maxChars: int): Result<string, Error> {
    var body :- Trimmed(u, raw, maxChars, InvalidNote);
    var _ :- RefuseIfCredential(u, body);
    Success(body)
  }

  /** One card field: blank is absent. */
  function NormalizeCardText(u: Unicode, raw: Option<string>, limit: int): Result<Option<string>, Error> {
    if raw.None? then Success(None)
    else
      var text := Trim(raw.value, u.isSpace);
      if text == "" then Success(None)
      else if |text| > limit then Failure(InvalidProfile)
      else Success(Some(text))
  }

  function RefuseIfPresent(u: Unicode, text: Option<string>): Result<(), Error> {
    if text.None? then Success(()) else RefuseIfCredential(u, text.value)
  }

  /** The three card fields are all normalised before any of them is checked. */
  function VetCard(u: Unicode, raw: CardText): Result<CardText, Error> {
    var name :- NormalizeCardText(u, raw.displayName, MAX_DISPLAY_NAME_LENGTH);
    var pronouns :- NormalizeCardText(u, raw.pronouns, MAX_PRONOUNS_LENGTH);
    var summary :- NormalizeCardText(u, raw.summary, MAX_SUMMARY_LENGTH);
    var _ :- RefuseIfPresent(u, name);
    var _ :- RefuseIfPresent(u, pronouns);
    var _ :- RefuseIfPresent(u, summary);
    Success(CardText(name, pronouns, summary))
  }

  /** What a field write must be for the stored row and the index to agree. */
  ghost predicate VettedField(u: Unicode, w: FieldWrite) {
    && IsStoredKey(w.key)
    && Clean(u, w.valueJson) && Clean(u, w.description)
    && Loads(w.valueJson).Some?
    && Bag(u, w.searchable) == Bag(u, FieldText(w.key, w.description, Loads(w.valueJson).value))
    && w.valueType == DeriveValueType(Loads(w.valueJson).value)
  }

  ghost predicate VettedCard(u: Unicode, c: CardText) {
    && (c.displayName.Some? ==> Clean(u, c.displayName.value))
    && (c.pronouns.Some? ==> Clean(u, c.pronouns.value))
    && (c.summary.Some? ==> Clean(u, c.summary.value))
  }

  /** What an accepted field is made of. */
  lemma AcceptedParts(u: Unicode, limits: ValueLimits, rawKey: string, rawDescription: string, value: Json)
    requires VetField(u, limits, rawKey, rawDescription, value).Success?
    ensures NormalizeKey(u, rawKey).Success? && ValidateValue(value, limits).Success?
    ensures var w := VetField(u, limits, rawKey, rawDescription, value).value;
            && w.key == NormalizeKey(u, rawKey).value
            && w.description == Trim(rawDescription, u.isSpace)
            && w.valueJson == ValidateValue(value, limits).value
            && w.valueType == DeriveValueType(value)
            && w.searchable == FieldText(w.key, w.description, value)
            && Clean(u, w.valueJson) && Clean(u, w.description)
  {
  }

  lemma VettedFromParts(u: Unicode, w: FieldWrite, value: Json, stored: Json)
    requires IsStoredKey(w.key) && Clean(u, w.valueJson) && Clean(u, w.description)
             && Loads(w.valueJson) == Some(stored)
    requires w.valueType == DeriveValueType(value) == DeriveValueType(stored)
    requires w.searchable == FieldText(w.key, w.description, value)
    requires Bag(u, FieldText(w.key, w.description, value)) == Bag(u, FieldText(w.key, w.description, stored))
    ensures VettedField(u, w)
  {
  }

  /** Everything accepted is stored under a proper key, is no credential, decodes, and is
      indexed under the same terms its decoded form would be, although the index text keeps
      the caller's key order and the stored text does not. */
  lemma VettingIsEnough(u: Unicode, limits: ValueLimits, rawKey: string, rawDescription: string, value: Json)
    requires u.Facts() && Decoded(value) && VetField(u, limits, rawKey, rawDescription, value).Success?
    ensures VettedField(u, VetField(u, limits, rawKey, rawDescription, value).value)
  {
    var w := VetField(u, limits, rawKey, rawDescription, value).value;
    AcceptedParts(u, limits, rawKey, rawDescription, value);
    NormalizedKeysAreStoredKeys(u, rawKey);
    StoredAndIndexedAgree(u, limits, w.key, w.description, value);
    VettedFromParts(u, w, value, Loads(w.valueJson).value);
  }

  lemma StoredAndIndexedAgree(u: Unicode, limits: ValueLimits, key: string, description: string, value: Json)
    requires u.Facts() && Decoded(value) && ValidateValue(value, limits).Success?
    ensures var stored := Loads(ValidateValue(value, limits).value);
            stored.Some? && DeriveValueType(stored.value) == DeriveValueType(value)
            && Bag(u, FieldText(key, description, value)) == Bag(u, FieldText(key, description, stored.value))
  {
    StoredTextDecodes(value, limits);
    CheckAccepts(value, limits);
    FieldTextSorted(u, key, description, value, limits);
    SortedShallow(value, limits);
  }

  lemma VettedCardsAreClean(u: Unicode, raw: CardText)
    requires VetCard(u, raw).Success?
    ensures VettedCard(u, VetCard(u, raw).value)
  {
  }
}
