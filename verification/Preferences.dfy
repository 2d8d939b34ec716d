/** What one person has chosen, inside what the deployment allows. */
module Preferences {
  import opened Wrappers
  import opened Text
  import opened Tables
  import opened Erasure
  import opened Times
  import opened Machine
  import opened Caps

  /** The part of the configuration a person's choices are read against. */
  datatype Configuration = Configuration(limits: Limits, recallDefault: int, recallMax: int)

  /** A setting's value as it was decoded; booleans are not whole numbers here. */
  datatype Setting = Absent | Whole(n: int) | Words(s: string) | Switch(on: bool) | Unusable

  /** What the settings service answered, if it did. */
  datatype Answer = Resolved(settings: map<string, Setting>) | Unavailable | Rejected | Refused

  datatype Preferences = Preferences(recallDefault: int, maxPinnedFields: int, maxPinnedNotes: int,
                                     erasure: ErasurePolicy, logValues: bool)

  datatype PreferencesError = PreferencesUnavailable

  function Chosen(settings: map<string, Setting>, key: string): Setting {
    if key in settings then settings[key] else Absent
  }

  function Narrow(deployment: int, chosen: Option<int>, ceiling: Option<int>): int {
    var value := if chosen.Some? && chosen.value < deployment then chosen.value else deployment;
    if ceiling.Some? && ceiling.value < value then ceiling.value else value
  }

  function WholeNumber(s: Setting, minimum: int, maximum: Option<int>): Option<int> {
    if s.Whole? && s.n >= minimum && (maximum.Some? ==> s.n <= maximum.value) then Some(s.n) else None
  }

  function ModeNamed(s: Setting): Option<ErasureMode> {
    match s
    case Words(name) =>
      if name == "grace" then Some(Grace)
      else if name == "immediate" then Some(Immediate)
      else if name == "tombstone" then Some(ErasureMode.Tombstone)
      else None
    case _ => None
  }

  function ErasureOf(settings: map<string, Setting>): ErasurePolicy {
    var mode := ModeNamed(Chosen(settings, "erasure_mode"));
    if mode.None? then TOMBSTONE
    else if !mode.value.Grace? then ErasurePolicy(mode.value, DEFAULT_GRACE_DAYS)
    else
      var days := WholeNumber(Chosen(settings, "grace_days"), 0, Some(MAX_GRACE_DAYS));
      ErasurePolicy(Grace, if days.None? then DEFAULT_GRACE_DAYS else days.value)
  }

  function Deployment(c: Configuration): Preferences {
    Preferences(c.recallDefault, c.limits.maxPinnedFields, c.limits.maxPinnedNotes, TOMBSTONE, false)
  }

  function Applied(c: Configuration, settings: map<string, Setting>): Preferences {
    Preferences(
      Narrow(c.recallDefault, WholeNumber(Chosen(settings, "recall_default_limit"), 1, None), Some(c.recallMax)),
      Narrow(c.limits.maxPinnedFields, WholeNumber(Chosen(settings, "max_pinned_fields"), 1, None), None),
      Narrow(c.limits.maxPinnedNotes, WholeNumber(Chosen(settings, "max_pinned_notes"), 1, None), None),
      ErasureOf(settings),
      Chosen(settings, "log_values") == Switch(true))
  }

  /** An outage is the configuration; a refusal fails the request. */
  function ForToken(c: Configuration, answer: Answer): Result<Preferences, PreferencesError> {
    match answer
    case Resolved(settings) => Success(Applied(c, settings))
    case Unavailable => Success(Deployment(c))
    case Rejected => Failure(PreferencesUnavailable)
    case Refused => Failure(PreferencesUnavailable)
  }

  // ---- what can reach the stores ------------------------------------------------------------

  /** What the configuration itself is refused for not being. */
  predicate Sensible(c: Configuration) {
    && c.limits.maxPersonas >= 1 && c.limits.maxFields >= 1 && c.limits.maxNotes >= 1
    && c.limits.maxPinnedFields >= 1 && c.limits.maxPinnedNotes >= 1 && c.limits.maxEntries >= 1
    && 1 <= c.recallDefault <= c.recallMax
  }

  /** A person may narrow a ceiling and never raise it; and no choice, well-formed or not, leaves
      one below one. */
  lemma ChoicesOnlyNarrow(c: Configuration, answer: Answer)
    requires Sensible(c) && ForToken(c, answer).Success?
    ensures var p := ForToken(c, answer).value;
            && 1 <= p.maxPinnedFields <= c.limits.maxPinnedFields
            && 1 <= p.maxPinnedNotes <= c.limits.maxPinnedNotes
            && 1 <= p.recallDefault <= c.recallDefault <= c.recallMax
  {
  }

  /** Within that, the choice is what counts: a person who chose a usable number gets the most
      that is within both, and one who did not gets the deployment's. */
  lemma UsableChoiceCounts(c: Configuration, settings: map<string, Setting>, m: int)
    requires Sensible(c)
    ensures m <= Applied(c, settings).maxPinnedFields <==>
              m <= c.limits.maxPinnedFields && forall n :: ChoseNumber(settings, "max_pinned_fields", n) ==> m <= n
    ensures m <= Applied(c, settings).maxPinnedNotes <==>
              m <= c.limits.maxPinnedNotes && forall n :: ChoseNumber(settings, "max_pinned_notes", n) ==> m <= n
    ensures m <= Applied(c, settings).recallDefault <==>
              m <= c.recallDefault && forall n :: ChoseNumber(settings, "recall_default_limit", n) ==> m <= n
  {
    NumberChosen(settings, "max_pinned_fields");
    NumberChosen(settings, "max_pinned_notes");
    NumberChosen(settings, "recall_default_limit");
  }

  /** A setting that holds a whole number, and not less than one. */
  predicate ChoseNumber(settings: map<string, Setting>, key: string, n: int) {
    key in settings && settings[key] == Whole(n) && n >= 1
  }

  lemma NumberChosen(settings: map<string, Setting>, key: string)
    ensures var number := WholeNumber(Chosen(settings, key), 1, None);
            forall n :: ChoseNumber(settings, key, n) <==> number == Some(n)
  {
  }

  /** The rest of what a person chooses: a policy is the one named, with the days named if it is a
      grace period and they are a whole number from 0 to 365, and 30 otherwise; values are logged
      only if that was switched on. */
  lemma ChoicesAreHeeded(c: Configuration, settings: map<string, Setting>)
    ensures var p := ForToken(c, Resolved(settings));
            && p.Success?
            && (p.value.logValues <==> "log_values" in settings && settings["log_values"] == Switch(true))
            && (p.value.erasure.mode.Grace? ==>
                  forall n :: p.value.erasure.graceDays == n <==>
                    if exists d :: ChoseDays(settings, d) then ChoseDays(settings, n) else n == 30)
  {
    var days := WholeNumber(Chosen(settings, "grace_days"), 0, Some(MAX_GRACE_DAYS));
    assert forall d :: ChoseDays(settings, d) <==> days == Some(d);
  }

  predicate ChoseDays(settings: map<string, Setting>, d: int) {
    "grace_days" in settings && settings["grace_days"] == Whole(d) && 0 <= d <= 365
  }

  /** When the settings cannot be had, the deployment's hold and nothing is destroyed or logged;
      when they were refused, so is the request. */
  lemma WithoutSettings(c: Configuration)
    ensures ForToken(c, Unavailable)
            == Success(Preferences(c.recallDefault, c.limits.maxPinnedFields, c.limits.maxPinnedNotes,
                                   ErasurePolicy(ErasureMode.Tombstone, 30), false))
    ensures ForToken(c, Rejected).Failure? && ForToken(c, Refused).Failure?
  {
  }

  /** Nothing is destroyed that the person did not ask to have destroyed: the policy is other than
      a tombstone only where they named another, and a grace period is never longer than the
      catalogue's, nor negative. */
  lemma NothingIsDestroyedUnasked(c: Configuration, answer: Answer)
    requires ForToken(c, answer).Success?
    ensures var p := ForToken(c, answer).value.erasure;
            && 0 <= p.graceDays <= 365
            && (p.mode.Immediate? <==>
                answer.Resolved? && "erasure_mode" in answer.settings
                && answer.settings["erasure_mode"] == Words("immediate"))
            && (p.mode.Grace? <==>
                answer.Resolved? && "erasure_mode" in answer.settings
                && answer.settings["erasure_mode"] == Words("grace"))
  {
  }

  /** Forgetting under a policy a person can have chosen never runs off the calendar, outside
      its last year. */
  lemma ChosenTermsAreInstants(c: Configuration, answer: Answer, now: Instant)
    requires ForToken(c, answer).Success?
    requires OnCalendar(now) && OnCalendar(now + MAX_GRACE_DAYS * MICROS_PER_DAY)
    ensures var due := ForToken(c, answer).value.erasure.PurgeAfter(now);
            due.Success? && (due.value.Some? ==> now <= due.value.value)
  {
    NothingIsDestroyedUnasked(c, answer);
    var days := ForToken(c, answer).value.erasure.graceDays;
    assert 0 <= days * MICROS_PER_DAY <= MAX_GRACE_DAYS * MICROS_PER_DAY;
  }

  /** A command whose ceiling is what the caller's preferences said. */
  ghost predicate HeldToPreferences(conf: Configuration, c: Command) {
    match c
    case SetFieldCmd(r, _) =>
        exists a :: ForToken(conf, a).Success? && r.ceiling == Some(ForToken(conf, a).value.maxPinnedFields)
    case WriteNoteCmd(r, _) =>
        exists a :: ForToken(conf, a).Success? && r.ceiling == Some(ForToken(conf, a).value.maxPinnedNotes)
    case ReviseNoteCmd(r, _) =>
        exists a :: ForToken(conf, a).Success? && r.ceiling == Some(ForToken(conf, a).value.maxPinnedNotes)
    case AddPersonaCmd(_, _, cap) => cap == conf.limits.maxPersonas
    case _ => true
  }

  lemma PreferencesAreCeilings(conf: Configuration, c: Command)
    requires Sensible(conf) && HeldToPreferences(conf, c)
    ensures WithinCeilings(conf.limits, c)
  {
    match c
    case SetFieldCmd(r, _) =>
      var a :| ForToken(conf, a).Success? && r.ceiling == Some(ForToken(conf, a).value.maxPinnedFields);
      ChoicesOnlyNarrow(conf, a);
    case WriteNoteCmd(r, _) =>
      var a :| ForToken(conf, a).Success? && r.ceiling == Some(ForToken(conf, a).value.maxPinnedNotes);
      ChoicesOnlyNarrow(conf, a);
    case ReviseNoteCmd(r, _) =>
      var a :| ForToken(conf, a).Success? && r.ceiling == Some(ForToken(conf, a).value.maxPinnedNotes);
      ChoicesOnlyNarrow(conf, a);
    case _ =>
  }

  /** Whatever everybody chooses, and however often they change it, the deployment's caps hold
      after every run from the empty store. */
  lemma CapsHoldWhateverIsChosen(u: Unicode, conf: Configuration, cs: seq<Command>)
    requires Sensible(conf) && PossibleRun(u, INITIAL, conf.limits, cs)
    requires forall i :: 0 <= i < |cs| ==> HeldToPreferences(conf, cs[i])
    ensures RowCapsHold(Run(INITIAL, conf.limits, cs).db, conf.limits)
    ensures CapHoldsThroughout(INITIAL, conf.limits, cs) <==> NeverRevivesBeyondBudget(INITIAL, conf.limits, cs)
  {
    StartIsGood(u, conf.limits);
    CapsHoldAtStart(conf.limits);
    forall i | 0 <= i < |cs| ensures WithinCeilings(conf.limits, cs[i]) {
      PreferencesAreCeilings(conf, cs[i]);
    }
    CapsHoldOverRuns(u, INITIAL, conf.limits, cs);
    PinnedFieldsCapExactly(u, INITIAL, conf.limits, cs);
  }
}
