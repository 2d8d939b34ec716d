/** Every call of the stores and the service, as its methods are proved to carry it out, is a run
    of the machine: so what holds over runs holds over calls, raw input and refusals included. */
module Calls {
  import opened Wrappers
  import opened Text
  import opened Tables
  import opened Transactions
  import opened FieldValues
  import opened Vetting
  import opened Keys
  import opened Due
  import opened Machine
  import opened Reachable
  import opened Sweeping
  import opened PersonaStore

  datatype Deployment = Deployment(limits: Limits, valueLimits: ValueLimits, maxBodyChars: int)

  datatype Call =
    | SetAField(raw: FieldStore.RawField, outside: Outside)
    | ForgetAField(rawKey: string, forget: ForgetRequest, outside: Outside)
    | WriteANote(write: WriteRequest, outside: Outside)
    | ReviseANote(revise: ReviseRequest, outside: Outside)
    | ForgetANote(forget: ForgetRequest, outside: Outside)
    | SweepOnce(now: Instant, batch: int, sweep: Sweep)
    | CreatePersona(owner: Owner, card: CardText, personaId: string, author: Author, now: Instant, at: Instant)
    | EnsurePersona(owner: Owner, personaId: string, author: Author, now: Instant, at: Instant)
    | UpdateCard(owner: Owner, card: CardText, author: Author, now: Instant, at: Instant)
    | DeleteAPersona(owner: Owner, author: Author, at: Instant)

  /** The database after a call, by the contracts of the methods that carry it out. */
  function After(u: Unicode, d: Deployment, t: Tables, call: Call): Tables {
    match call
    case SetAField(raw, o) => FieldStore.SetRaw(u, d.valueLimits, t, d.limits, raw, o).After(t)
    case ForgetAField(rawKey, r, o) => FieldStore.ForgetRaw(u, t, d.limits, rawKey, r, o).After(t)
    case WriteANote(raw, o) => NoteStore.WriteRaw(u, d.maxBodyChars, t, d.limits, raw, o).After(t)
    case ReviseANote(raw, o) => NoteStore.ReviseRaw(u, d.maxBodyChars, t, d.limits, raw, o).After(t)
    case ForgetANote(r, o) => ForgetNote(t, d.limits, r, o).After(t)
    case SweepOnce(_, _, sweep) => Swept(t, sweep)
    case CreatePersona(owner, raw, id, author, now, at) => Created(u, t, d.limits, owner, raw, id, author, now, at).0
    case EnsurePersona(owner, id, author, now, at) => Ensured(u, t, d.limits, owner, id, author, now, at).0
    case UpdateCard(owner, raw, author, now, at) => Updated(u, t, d.limits, owner, raw, author, now, at).0
    case DeleteAPersona(owner, author, at) => Deleted(t, d.limits, owner, author, at).0
  }

  /** What the callers and the sweeper's queries see to: values are JSON as decoded, and a sweep
      destroys what is due longest. */
  ghost predicate Sane(t: Tables, call: Call) {
    match call
    case SetAField(raw, _) => Decoded(raw.value)
    case SweepOnce(now, batch, sweep) =>
      OldestDue(t.fields.rows, now, batch, sweep.fields) && OldestDue(t.notes.rows, now, batch, sweep.notes)
    case _ => true
  }

  /** The transactions a call submits, in order. */
  function Submitted(u: Unicode, d: Deployment, t: Tables, call: Call): seq<Command>
    decreases if call.EnsurePersona? then 1 else 0
  {
    match call
    case SetAField(raw, o) =>
      var w := VetField(u, d.valueLimits, raw.key, raw.description, raw.value);
      if w.Failure? then []
      else [SetFieldCmd(SetRequest(raw.owner, w.value, raw.author, raw.pinned, raw.ceiling, raw.logValues), o)]
    case ForgetAField(rawKey, r, o) =>
      var key := NormalizeKey(u, rawKey);
      if key.Failure? then [] else [ForgetFieldCmd(r.(subject := key.value), o)]
    case WriteANote(raw, o) =>
      var body := VetBody(u, raw.body, d.maxBodyChars);
      if body.Failure? then [] else [WriteNoteCmd(raw.(body := body.value), o)]
    case ReviseANote(raw, o) =>
      if raw.body.None? then [ReviseNoteCmd(raw, o)]
      else
        var body := VetBody(u, raw.body.value, d.maxBodyChars);
        if body.Failure? then [] else [ReviseNoteCmd(raw.(body := Some(body.value)), o)]
    case ForgetANote(r, o) => [ForgetNoteCmd(r, o)]
    case SweepOnce(now, batch, sweep) =>
        [PurgeFieldsCmd(now, batch, sweep.fields), PurgeNotesCmd(now, batch, sweep.notes)]
    case CreatePersona(owner, raw, id, author, now, at) =>
      var card := VetCard(u, raw);
      if card.Failure? || AddPersona(t, owner, NewCard(id, card.value, now), d.limits.maxPersonas).RolledBack? then []
      else [AddPersonaCmd(owner, NewCard(id, card.value, now), d.limits.maxPersonas),
            RecordCmd(owner, PersonaCreated, author, at)]
    case EnsurePersona(owner, id, author, now, at) =>
      if owner in t.personas then []
      else Submitted(u, d, t, CreatePersona(owner, CardText(None, None, None), id, author, now, at))
    case UpdateCard(owner, raw, author, now, at) =>
      var card := VetCard(u, raw);
      if card.Failure? || owner !in t.personas then []
      else [UpdatePersonaCmd(owner, card.value, now), RecordCmd(owner, PersonaUpdated, author, at)]
    case DeleteAPersona(owner, author, at) =>
      if owner !in t.personas then [] else [DeletePersonaCmd(owner), RecordCmd(owner, PersonaDeleted, author, at)]
  }

  lemma OneCommand(u: Unicode, w: World, limits: Limits, c: Command)
    requires Possible(u, w.db, c)
    ensures PossibleRun(u, w, limits, [c]) && Run(w, limits, [c]).db == Apply(w.db, limits, c)
  {
    assert [c][1..] == [];
  }

  lemma TwoCommands(u: Unicode, w: World, limits: Limits, a: Command, b: Command)
    requires Possible(u, w.db, a) && Possible(u, Apply(w.db, limits, a), b)
    ensures PossibleRun(u, w, limits, [a, b]) && Run(w, limits, [a, b]).db == Apply(Apply(w.db, limits, a), limits, b)
  {
    assert [a, b][1..] == [b];
    OneCommand(u, Next(w, limits, a), limits, b);
  }

  predicate OfPersonas(call: Call) {
    call.CreatePersona? || call.EnsurePersona? || call.UpdateCard? || call.DeleteAPersona?
  }

  /** Vetting is what makes a caller's text a possible command. */
  lemma VettedIsPossible(u: Unicode, d: Deployment, t: Tables, call: Call)
    requires u.Facts() && Sane(t, call)
    ensures forall i ::
              0 <= i < |Submitted(u, d, t, call)| && !call.SweepOnce? ==> Possible(u, t, Submitted(u, d, t, call)[i])
  {
    if OfPersonas(call) {
      VettedCardIsPossible(u, d, t, call);
    } else if call.SetAField? {
      if VetField(u, d.valueLimits, call.raw.key, call.raw.description, call.raw.value).Success? {
        VettingIsEnough(u, d.valueLimits, call.raw.key, call.raw.description, call.raw.value);
      }
    }
  }

  lemma VettedCardIsPossible(u: Unicode, d: Deployment, t: Tables, call: Call)
    requires OfPersonas(call)
    ensures forall i :: 0 <= i < |Submitted(u, d, t, call)| ==> Possible(u, t, Submitted(u, d, t, call)[i])
  {
    match call
    case CreatePersona(_, raw, _, _, _, _) => if VetCard(u, raw).Success? { VettedCardsAreClean(u, raw); }
    case EnsurePersona(_, _, _, _, _) => VettedCardsAreClean(u, CardText(None, None, None));
    case UpdateCard(_, raw, _, _, _) => if VetCard(u, raw).Success? { VettedCardsAreClean(u, raw); }
    case DeleteAPersona(_, _, _) =>
  }

  function ApplyAll(t: Tables, limits: Limits, cs: seq<Command>): Tables
    decreases |cs|
  {
    if cs == [] then t else ApplyAll(Apply(t, limits, cs[0]), limits, cs[1..])
  }

  lemma AppliesOne(t: Tables, limits: Limits, a: Command)
    ensures ApplyAll(t, limits, [a]) == Apply(t, limits, a)
  {
    assert [a][1..] == [];
  }

  lemma AppliesTwo(t: Tables, limits: Limits, a: Command, b: Command)
    ensures ApplyAll(t, limits, [a, b]) == Apply(Apply(t, limits, a), limits, b)
  {
    assert [a, b][1..] == [b];
    AppliesOne(Apply(t, limits, a), limits, b);
  }

  /** The database after a call's transactions, spelled out. */
  predicate Amounts(t: Tables, limits: Limits, cs: seq<Command>, t': Tables) {
    || (cs == [] && t' == t)
    || (|cs| == 1 && t' == Apply(t, limits, cs[0]))
    || (|cs| == 2 && t' == Apply(Apply(t, limits, cs[0]), limits, cs[1]))
  }

  lemma MemoryCallAmounts(u: Unicode, d: Deployment, t: Tables, call: Call)
    requires !OfPersonas(call)
    ensures Amounts(t, d.limits, Submitted(u, d, t, call), After(u, d, t, call))
  {
  }

  lemma CreateAmounts(u: Unicode, d: Deployment, t: Tables, call: Call)
    requires call.CreatePersona?
    ensures Amounts(t, d.limits, Submitted(u, d, t, call), After(u, d, t, call))
  {
  }

  lemma PersonaCallAmounts(u: Unicode, d: Deployment, t: Tables, call: Call)
    requires OfPersonas(call)
    ensures Amounts(t, d.limits, Submitted(u, d, t, call), After(u, d, t, call))
  {
    match call
    case CreatePersona(_, _, _, _, _, _) => CreateAmounts(u, d, t, call);
    case EnsurePersona(owner, id, author, now, at) =>
      if owner !in t.personas {
        CreateAmounts(u, d, t, CreatePersona(owner, CardText(None, None, None), id, author, now, at));
      }
    case UpdateCard(_, _, _, _, _) => UpdateAmounts(u, d, t, call);
    case DeleteAPersona(_, _, _) => DeleteAmounts(u, d, t, call);
  }

  lemma UpdateAmounts(u: Unicode, d: Deployment, t: Tables, call: Call)
    requires call.UpdateCard?
    ensures Amounts(t, d.limits, Submitted(u, d, t, call), After(u, d, t, call))
  {
  }

  lemma DeleteAmounts(u: Unicode, d: Deployment, t: Tables, call: Call)
    requires call.DeleteAPersona?
    ensures Amounts(t, d.limits, Submitted(u, d, t, call), After(u, d, t, call))
  {
  }

  lemma SubmittedIsAll(u: Unicode, d: Deployment, t: Tables, call: Call)
    ensures |Submitted(u, d, t, call)| <= 2
    ensures ApplyAll(t, d.limits, Submitted(u, d, t, call)) == After(u, d, t, call)
  {
    var cs := Submitted(u, d, t, call);
    if OfPersonas(call) {
      PersonaCallAmounts(u, d, t, call);
    } else {
      MemoryCallAmounts(u, d, t, call);
    }
    AmountIsAll(t, d.limits, cs, After(u, d, t, call));
  }

  lemma AmountIsAll(t: Tables, limits: Limits, cs: seq<Command>, t': Tables)
    requires Amounts(t, limits, cs, t')
    ensures ApplyAll(t, limits, cs) == t'
  {
    if |cs| == 1 {
      AppliesOne(t, limits, cs[0]);
      assert cs == [cs[0]];
    } else if |cs| == 2 {
      AppliesTwo(t, limits, cs[0], cs[1]);
      assert cs == [cs[0], cs[1]];
    }
  }

  lemma SecondIsPossible(u: Unicode, d: Deployment, t: Tables, call: Call)
    requires u.Facts() && Sane(t, call) && |Submitted(u, d, t, call)| == 2
    ensures var cs := Submitted(u, d, t, call);
            Possible(u, t, cs[0]) && Possible(u, Apply(t, d.limits, cs[0]), cs[1])
  {
    VettedIsPossible(u, d, t, call);
    if !call.SweepOnce? { SecondIsRecord(u, d, t, call); }
  }

  /** But for a sweep, the second transaction of a call writes an event about a persona. */
  lemma SecondIsRecord(u: Unicode, d: Deployment, t: Tables, call: Call)
    requires !call.SweepOnce? && |Submitted(u, d, t, call)| == 2
    ensures Submitted(u, d, t, call)[1].RecordCmd? && Submitted(u, d, t, call)[1].action.Noun() == PersonaNoun
  {
  }

  /** The database after a call is the database after the transactions it submits, which are
      possible where they are submitted. */
  lemma CallIsRun(u: Unicode, d: Deployment, w: World, call: Call)
    requires u.Facts() && Sane(w.db, call)
    ensures PossibleRun(u, w, d.limits, Submitted(u, d, w.db, call))
    ensures Run(w, d.limits, Submitted(u, d, w.db, call)).db == After(u, d, w.db, call)
  {
    var cs := Submitted(u, d, w.db, call);
    SubmittedIsAll(u, d, w.db, call);
    if |cs| == 1 {
      VettedIsPossible(u, d, w.db, call);
      FewCommands(u, w, d.limits, cs);
    } else if |cs| == 2 {
      SecondIsPossible(u, d, w.db, call);
      FewCommands(u, w, d.limits, cs);
    }
  }

  lemma FewCommands(u: Unicode, w: World, limits: Limits, cs: seq<Command>)
    requires 1 <= |cs| <= 2 && Possible(u, w.db, cs[0])
             && (|cs| == 2 ==> Possible(u, Apply(w.db, limits, cs[0]), cs[1]))
    ensures PossibleRun(u, w, limits, cs) && Run(w, limits, cs).db == ApplyAll(w.db, limits, cs)
  {
    if |cs| == 1 {
      OneCommand(u, w, limits, cs[0]);
      AppliesOne(w.db, limits, cs[0]);
      assert cs == [cs[0]];
    } else {
      TwoCommands(u, w, limits, cs[0], cs[1]);
      AppliesTwo(w.db, limits, cs[0], cs[1]);
      assert cs == [cs[0], cs[1]];
    }
  }

  // ---- any number of calls ----------------------------------------------------------------------

  ghost predicate SaneCalls(u: Unicode, d: Deployment, t: Tables, calls: seq<Call>)
    decreases |calls|
  {
    calls == [] || (Sane(t, calls[0]) && SaneCalls(u, d, After(u, d, t, calls[0]), calls[1..]))
  }

  function AfterAll(u: Unicode, d: Deployment, t: Tables, calls: seq<Call>): Tables
    decreases |calls|
  {
    if calls == [] then t else AfterAll(u, d, After(u, d, t, calls[0]), calls[1..])
  }

  /** Whatever is called, in whatever order, with whatever arguments, the database is one that
      some world of the machine holds, so everything that is true of those is true of it. */
  lemma {:induction false} CallsStayGood(u: Unicode, d: Deployment, w: World, calls: seq<Call>)
    requires u.Facts() && Good(u, w, d.limits) && SaneCalls(u, d, w.db, calls)
    ensures exists w': World :: Good(u, w', d.limits) && w'.db == AfterAll(u, d, w.db, calls)
    decreases |calls|
  {
    if calls != [] {
      var cs := Submitted(u, d, w.db, calls[0]);
      CallIsRun(u, d, w, calls[0]);
      RunIsGood(u, w, d.limits, cs);
      CallsStayGood(u, d, Run(w, d.limits, cs), calls[1..]);
    }
  }

  // ---- calls in flight together -------------------------------------------------------------------

  /** A transaction whose turn it is: one that some call submitted, whenever that call began and
      whatever has happened since, or half of a sweep, which picks its rows when its turn comes. */
  ghost predicate Turn(u: Unicode, d: Deployment, t: Tables, c: Command) {
    match c
    case PurgeFieldsCmd(now, limit, ks) => OldestDue(t.fields.rows, now, limit, ks)
    case PurgeNotesCmd(now, limit, ks) => OldestDue(t.notes.rows, now, limit, ks)
    case _ => exists began, call :: Sane(began, call) && c in Submitted(u, d, began, call)
  }

  lemma TurnIsPossible(u: Unicode, d: Deployment, t: Tables, c: Command)
    requires u.Facts() && Turn(u, d, t, c)
    ensures Possible(u, t, c)
  {
    if !c.PurgeFieldsCmd? && !c.PurgeNotesCmd? {
      var began, call :| Sane(began, call) && c in Submitted(u, d, began, call);
      VettedIsPossible(u, d, began, call);
      assert !call.SweepOnce?;
      PossibleAtAnyTime(u, began, t, c);
    }
  }

  lemma PossibleAtAnyTime(u: Unicode, began: Tables, t: Tables, c: Command)
    requires Possible(u, began, c) && !c.PurgeFieldsCmd? && !c.PurgeNotesCmd?
    ensures Possible(u, t, c)
  {
  }

  ghost predicate Turns(u: Unicode, d: Deployment, w: World, cs: seq<Command>)
    decreases |cs|
  {
    cs == [] || (Turn(u, d, w.db, cs[0]) && Turns(u, d, Next(w, d.limits, cs[0]), cs[1..]))
  }

  /** However the transactions of any number of calls fall between one another, the two halves of
      one call apart and other calls' in between, the database stays good. */
  lemma {:induction false} InterleavedCallsStayGood(u: Unicode, d: Deployment, w: World, cs: seq<Command>)
    requires u.Facts() && Good(u, w, d.limits) && Turns(u, d, w, cs)
    ensures PossibleRun(u, w, d.limits, cs) && Good(u, Run(w, d.limits, cs), d.limits)
    decreases |cs|
  {
    if cs != [] {
      TurnIsPossible(u, d, w.db, cs[0]);
      GoodKept(u, w, d.limits, cs[0]);
      InterleavedCallsStayGood(u, d, Next(w, d.limits, cs[0]), cs[1..]);
    }
  }
}
