/** Why the cap on pinned fields needs its hypothesis: five ordinary calls that leave one more
    pinned live field than the cap allows. */
module PinnedRevival {
  import opened Wrappers
  import opened Text
  import opened Json
  import opened Projection
  import opened Tables
  import opened Erasure
  import opened Transactions
  import opened Keys
  import opened Secrets
  import opened Vetting
  import opened Machine
  import opened Caps

  const LIMITS := Limits(1, 2, 1, 1, 1, 100)
  const OWNER := Owner("account", "default")
  const AUTHOR := Author(OwnerSaid, "app")
  const CARD := Card("per_1", None, None, None, 0, 0)
  const A := FieldKey(OWNER, "a")
  const B := FieldKey(OWNER, "b")

  function Pin(key: string, pinned: Option<bool>): SetRequest {
    SetRequest(OWNER, FieldWrite(key, key, "1", NumberType, FieldText(key, key, JNumber("1"))), AUTHOR, pinned, None,
               false)
  }

  const ADD := AddPersonaCmd(OWNER, CARD, 1)
  const PIN_A := SetFieldCmd(Pin("a", Some(true)), Outside(1, 1, "fld_1"))
  const FORGET_A := ForgetFieldCmd(ForgetRequest(OWNER, "a", AUTHOR, TOMBSTONE), Outside(2, 2, ""))
  const PIN_B := SetFieldCmd(Pin("b", Some(true)), Outside(3, 3, "fld_2"))
  const REVIVE_A := SetFieldCmd(Pin("a", None), Outside(4, 4, ""))

  /** Pin a field, forget it, pin another in its place, and set the first again. */
  const CALLS := [ADD, PIN_A, FORGET_A, PIN_B, REVIVE_A]

  lemma OneLoads()
    ensures Loads("1") == Some(JNumber("1"))
  {
    LoadsRendered(JNumber("1"));
    assert Render(JNumber("1")) == "1";
  }

  lemma LetterIsVetted(u: Unicode, key: string, pinned: Option<bool>)
    requires u.Facts() && (key == "a" || key == "b")
    ensures VettedField(u, Pin(key, pinned).write)
  {
    OneLoads();
    ShortIdsAreClean(u, key);
    ShortIdsAreClean(u, "1");
    LetterIsKey(key);
  }

  lemma LetterIsKey(key: string)
    requires key == "a" || key == "b"
    ensures IsStoredKey(key)
  {
  }

  lemma ShortIdsAreClean(u: Unicode, s: string)
    requires u.Facts() && 0 < |s| < MIN_RUN_LENGTH && forall c :: c in s ==> IsIdChar(c)
    ensures Clean(u, s)
  {
    IdsHaveNoKnownShape(s);
    OneRun(u, s);
    assert FirstDense([s]) == None;
  }

  function PinnedRow(key: string, id: string, docid: nat, now: Instant): FieldRow {
    NewField(Pin(key, Some(true)), Outside(now, now, id)).(docid := docid)
  }

  function AfterAdd(): Tables { Apply(EMPTY, LIMITS, ADD) }
  function AfterPinA(): Tables { Apply(AfterAdd(), LIMITS, PIN_A) }
  function AfterForgetA(): Tables { Apply(AfterPinA(), LIMITS, FORGET_A) }
  function AfterPinB(): Tables { Apply(AfterForgetA(), LIMITS, PIN_B) }
  function AfterReviveA(): Tables { Apply(AfterPinB(), LIMITS, REVIVE_A) }

  lemma PinnedOnce()
    ensures AfterPinA().personas == map[OWNER := CARD]
    ensures AfterPinA().fields.rows == map[A := PinnedRow("a", "fld_1", 1, 1)] && AfterPinA().fields.next == 1
  {
    assert PersonasOf(EMPTY.personas, "account") == {};
    assert LiveKeys(AfterAdd().fields.rows, OWNER) == {} && PinnedKeys(AfterAdd().fields.rows, OWNER) == {};
  }

  lemma ForgottenAlone(t: Tables, a: FieldRow)
    requires t.fields.rows == map[A := a] && a.Live()
    ensures var t' := Apply(t, LIMITS, FORGET_A);
            t'.personas == t.personas && t'.fields.rows == map[A := a.Forgotten(2, None)]
              && t'.fields.next == t.fields.next
  {
  }

  lemma ForgottenStaysPinned()
    ensures AfterForgetA().personas == map[OWNER := CARD]
    ensures AfterForgetA().fields.rows == map[A := PinnedRow("a", "fld_1", 1, 1).Forgotten(2, None)]
    ensures AfterForgetA().fields.next == 1
  {
    PinnedOnce();
    ForgottenAlone(AfterPinA(), PinnedRow("a", "fld_1", 1, 1));
  }

  lemma BBesideForgotten(t: Tables, a: FieldRow)
    requires t.personas == map[OWNER := CARD] && t.fields.rows == map[A := a] && t.fields.next == 1 && A != B
    requires a.owner == OWNER && !a.Live() && a.content.fieldId == "fld_1"
    ensures Apply(t, LIMITS, PIN_B).fields.rows == map[A := a, B := PinnedRow("b", "fld_2", 2, 3)]
  {
    assert LiveKeys(t.fields.rows, OWNER) == {} && PinnedKeys(t.fields.rows, OWNER) == {};
  }

  lemma RoomForAnother()
    ensures AfterPinB().fields.rows
         == map[A := PinnedRow("a", "fld_1", 1, 1).Forgotten(2, None), B := PinnedRow("b", "fld_2", 2, 3)]
  {
    ForgottenStaysPinned();
    BBesideForgotten(AfterForgetA(), PinnedRow("a", "fld_1", 1, 1).Forgotten(2, None));
  }

  /** Reviving asks for room among the live fields, and for none among the pinned. */
  lemma RevivedBesideB(t: Tables, a: FieldRow, b: FieldRow)
    requires t.fields.rows == map[A := a, B := b] && A != B
    requires a.owner == OWNER && !a.Live() && a.pinned && a.purgeAfter == None
    requires b.owner == OWNER && b.Live() && b.pinned
    ensures PinnedKeys(Apply(t, LIMITS, REVIVE_A).fields.rows, OWNER) == {A, B}
  {
    var r, o := Pin("a", None), Outside(4, 4, "");
    assert LiveKeys(t.fields.rows, OWNER) == {B};
    assert SetField(t, LIMITS, r, o) == ReviseField(t, LIMITS, r, o);
    assert ReviseField(t, LIMITS, r, o).After(t).fields.rows == map[A := RevisedField(a, r, 4), B := b];
  }

  lemma BothPinned()
    ensures PinnedKeys(AfterReviveA().fields.rows, OWNER) == {A, B}
  {
    RoomForAnother();
    RevivedBesideB(AfterPinB(), PinnedRow("a", "fld_1", 1, 1).Forgotten(2, None), PinnedRow("b", "fld_2", 2, 3));
  }

  lemma FiveSteps(w: World)
    ensures Run(w, LIMITS, CALLS).db
         == Apply(Apply(Apply(Apply(Apply(w.db, LIMITS, ADD), LIMITS, PIN_A), LIMITS, FORGET_A), LIMITS, PIN_B),
                  LIMITS, REVIVE_A)
  {
    var w1 := Next(w, LIMITS, ADD);
    var w2 := Next(w1, LIMITS, PIN_A);
    var w3 := Next(w2, LIMITS, FORGET_A);
    var w4 := Next(w3, LIMITS, PIN_B);
    RunsFirst(w, ADD, [PIN_A, FORGET_A, PIN_B, REVIVE_A]);
    RunsFirst(w1, PIN_A, [FORGET_A, PIN_B, REVIVE_A]);
    RunsFirst(w2, FORGET_A, [PIN_B, REVIVE_A]);
    RunsFirst(w3, PIN_B, [REVIVE_A]);
    RunsFirst(w4, REVIVE_A, []);
  }

  lemma RunsFirst(w: World, c: Command, rest: seq<Command>)
    ensures Run(w, LIMITS, [c] + rest) == Run(Next(w, LIMITS, c), LIMITS, rest)
  {
    assert ([c] + rest)[1..] == rest;
  }

  lemma {:induction false} AlwaysPossible(u: Unicode, w: World, cs: seq<Command>)
    requires forall i, t :: 0 <= i < |cs| ==> Possible(u, t, cs[i])
    ensures PossibleRun(u, w, LIMITS, cs)
    decreases |cs|
  {
    if cs != [] {
      assert Possible(u, w.db, cs[0]);
      AlwaysPossible(u, Next(w, LIMITS, cs[0]), cs[1..]);
    }
  }

  lemma CallsArePossible(u: Unicode)
    requires u.Facts()
    ensures PossibleRun(u, INITIAL, LIMITS, CALLS)
  {
    LetterIsVetted(u, "a", Some(true));
    LetterIsVetted(u, "a", None);
    LetterIsVetted(u, "b", Some(true));
    forall i, t | 0 <= i < |CALLS| ensures Possible(u, t, CALLS[i]) {
      EachIsPossible(u, t, CALLS[i]);
    }
    AlwaysPossible(u, INITIAL, CALLS);
  }

  lemma EachIsPossible(u: Unicode, t: Tables, c: Command)
    requires VettedField(u, Pin("a", Some(true)).write) && VettedField(u, Pin("b", Some(true)).write)
    requires c in CALLS
    ensures Possible(u, t, c)
  {
  }

  lemma CeilingsAreKept(i: nat)
    requires i < |CALLS|
    ensures WithinCeilings(LIMITS, CALLS[i])
  {
  }

  lemma EndsRevived(w: World, cs: seq<Command>)
    requires w.db == EMPTY && cs == CALLS
    ensures Run(w, LIMITS, cs).db == AfterReviveA()
  {
    FiveSteps(w);
  }

  lemma TwoPinned()
    ensures |PinnedKeys(AfterReviveA().fields.rows, OWNER)| == 2
  {
    BothPinned();
    assert A != B && |{A, B}| == 2;
  }

  lemma OneTooMany(w: World, cs: seq<Command>)
    requires w.db == EMPTY && cs == CALLS
    ensures |PinnedKeys(Run(w, LIMITS, cs).db.fields.rows, OWNER)| == 2
  {
    EndsRevived(w, cs);
    TwoPinned();
  }

  /** The run is one the service can make, nobody's ceiling is above the deployment's, and it
      leaves two pinned live fields where one is allowed. */
  lemma PinnedCapCanBeExceeded(u: Unicode)
    requires u.Facts()
    ensures exists limits, cs, owner ::
      && Positive(limits) && PossibleRun(u, INITIAL, limits, cs)
      && (forall i :: 0 <= i < |cs| ==> WithinCeilings(limits, cs[i]))
      && |PinnedKeys(Run(INITIAL, limits, cs).db.fields.rows, owner)| > limits.maxPinnedFields
  {
    var cs := CALLS;
    CallsArePossible(u);
    forall i | 0 <= i < |cs| ensures WithinCeilings(LIMITS, cs[i]) {
      CeilingsAreKept(i);
    }
    OneTooMany(INITIAL, cs);
  }
}
