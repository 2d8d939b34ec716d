/** One kind of row with everything that has to move with it: its table, its index, the log as
    it would stand if it were never trimmed, and every event as it was first written.

    A transaction changes such a book in one or two of five ways.  Each way is shown once,
    for fields and notes alike, to keep what must hold in every state.
 */
module Books {
  import opened Wrappers
  import opened Tables

  /** `full[i]` is the event with sequence `i + 1` as the strips so far have left it, and
      `hist[i]` the same event as written, with the docid of the row it is about.  `deleted`
      are the personas that were ever deleted. */
  datatype Book<K(==), C> = Book(shelf: Shelf<K, C>, full: seq<Event>, hist: seq<Record>, deleted: set<Owner>)

  datatype Change<K(==), C> =
    | Insert(k: K, row: Row<C>, text: string, event: Event)
    | Rewrite(k: K, row: Row<C>, text: string, event: Event)
    | Hide(k: K, row: Row<C>, event: Event)
    | Destroy(ks: set<K>)
    | Cascade(owner: Owner)

  /** What the book is about, and what its texts must satisfy: which contents may be stored,
      and which index text goes with which subject and content. */
  datatype Kind<!C> = Kind(noun: Noun, storable: C -> bool, found: (string, C, string) -> bool)

  /** Events that make a new revision of a row. */
  predicate Writes(a: Action) {
    a.FieldSet? || a.FieldRevised? || a.NoteWritten? || a.NoteRevised?
  }

  function Spoken(full: seq<Event>, e: Event): seq<Event> {
    full + [e.(sequence := |full| + 1)]
  }

  function Remembered(hist: seq<Record>, e: Event, docid: nat): seq<Record> {
    hist + [Record(e.(sequence := |hist| + 1), docid)]
  }

  function Done<K, C>(b: Book<K, C>, noun: Noun, c: Change<K, C>): Book<K, C> {
    match c
    case Insert(k, row, text, e) =>
      Book(Inserted(b.shelf, k, row, text), Spoken(b.full, e), Remembered(b.hist, e, b.shelf.next + 1), b.deleted)
    case Rewrite(k, row, text, e) =>
      Book(Rewritten(b.shelf, k, row, text), Spoken(b.full, e), Remembered(b.hist, e, row.docid), b.deleted)
    case Hide(k, row, e) =>
      Book(Hidden(b.shelf, k, row), Spoken(b.full, e), Remembered(b.hist, e, row.docid), b.deleted)
    case Destroy(ks) =>
      Book(Without(b.shelf, ks), Struck(b.full, Scopes(b.shelf.rows, noun, ks)), b.hist, b.deleted)
    case Cascade(owner) =>
      Book(Without(b.shelf, OwnedKeys(b.shelf.rows, owner)), Struck(b.full, {AboutPersona(owner)}), b.hist,
           b.deleted + {owner})
  }

  ghost predicate About<C>(e: Event, noun: Noun, row: Row<C>) {
    e.action.Noun() == noun && e.owner == row.owner && e.subject == row.subject
  }

  ghost predicate Held<K(!new), C>(s: Shelf<K, C>, owner: Owner, subject: string) {
    exists k :: k in s.rows && s.rows[k].owner == owner && s.rows[k].subject == subject
  }

  ghost predicate HeldLive<K(!new), C>(s: Shelf<K, C>, owner: Owner, subject: string) {
    exists k :: k in s.rows && s.rows[k].owner == owner && s.rows[k].subject == subject && s.rows[k].Live()
  }

  /** What the stores see to before they make a change. */
  ghost predicate Allowed<K(!new), C(!new)>(b: Book<K, C>, kind: Kind<C>, c: Change<K, C>) {
    match c
    case Insert(k, row, text, e) =>
      && k !in b.shelf.rows && !Held(b.shelf, row.owner, row.subject) && row.Live() && row.purgeAfter == None
         && row.revision == 1
      && About(e, kind.noun, row) && Writes(e.action) && e.oldValue == None
      && kind.storable(row.content) && kind.found(row.subject, row.content, text)
    case Rewrite(k, row, text, e) =>
      && k in b.shelf.rows && row.Live() && row.purgeAfter == None
      && row.docid == b.shelf.rows[k].docid && row.owner == b.shelf.rows[k].owner
         && row.subject == b.shelf.rows[k].subject
      && row.revision == b.shelf.rows[k].revision + 1
      && About(e, kind.noun, row) && Writes(e.action)
      && kind.storable(row.content) && kind.found(row.subject, row.content, text)
    case Hide(k, row, e) =>
      && k in b.shelf.rows && b.shelf.rows[k].Live() && !row.Live()
      && row.docid == b.shelf.rows[k].docid && row.owner == b.shelf.rows[k].owner
         && row.subject == b.shelf.rows[k].subject
      && row.revision == b.shelf.rows[k].revision && row.content == b.shelf.rows[k].content
      && About(e, kind.noun, row) && !Writes(e.action) && e.oldValue == None
    case Destroy(ks) => ks <= b.shelf.rows.Keys && forall k :: k in ks ==> !b.shelf.rows[k].Live()
    case Cascade(_) => true
  }

  // ---- what holds in every state --------------------------------------------------------

  /** Docids are handed out once: each row has its own, none beyond the counter. */
  ghost predicate DocidsApart<K(!new), C>(s: Shelf<K, C>) {
    && (forall k :: k in s.rows ==> 1 <= s.rows[k].docid <= s.next)
    && (forall j, k :: j in s.rows && k in s.rows && s.rows[j].docid == s.rows[k].docid ==> j == k)
  }

  /** The index holds exactly one entry for each live row, under that row's docid. */
  ghost predicate IndexesLiveRows<K(!new), C>(s: Shelf<K, C>) {
    && (forall k :: k in s.rows ==> (s.rows[k].docid in s.index <==> s.rows[k].Live()))
    && (forall d :: d in s.index ==> exists k :: k in s.rows && s.rows[k].docid == d)
  }

  ghost predicate TextsAgree<K(!new), C(!new)>(s: Shelf<K, C>, kind: Kind<C>) {
    && (forall k :: k in s.rows ==> kind.storable(s.rows[k].content))
    && (forall k :: k in s.rows && s.rows[k].docid in s.index ==>
          kind.found(s.rows[k].subject, s.rows[k].content, s.index[s.rows[k].docid]))
  }

  ghost predicate LiveRowsHaveNoTerm<K(!new), C>(s: Shelf<K, C>) {
    forall k :: k in s.rows && s.rows[k].Live() ==> s.rows[k].purgeAfter == None
  }

  /** Every remembered event of this kind names a docid that was handed out, and if the row
      is still there, its owner and subject. */
  ghost predicate RecordsMatch<K(!new), C>(s: Shelf<K, C>, noun: Noun, hist: seq<Record>) {
    forall i :: 0 <= i < |hist| && hist[i].event.action.Noun() == noun ==>
      && 1 <= hist[i].docid <= s.next
      && forall k :: k in s.rows && s.rows[k].docid == hist[i].docid ==> About(hist[i].event, noun, s.rows[k])
  }

  ghost predicate HasRow<K(!new), C>(s: Shelf<K, C>, docid: nat) {
    exists k :: k in s.rows && s.rows[k].docid == docid
  }

  /** A value the log keeps is a copy from a row that still exists, the same incarnation of it. */
  ghost predicate ValuesHaveRows<K(!new), C>(s: Shelf<K, C>, noun: Noun, full: seq<Event>, hist: seq<Record>)
    requires |full| == |hist|
  {
    forall i :: 0 <= i < |full| && full[i].action.Noun() == noun && full[i].oldValue.Some? ==> HasRow(s, hist[i].docid)
  }

  /** And the other way round: while the row an event is about is there, the event is as it was
      written, its value and all. */
  ghost predicate RowsKeepValues<K(!new), C>(s: Shelf<K, C>, noun: Noun, full: seq<Event>, hist: seq<Record>)
    requires |full| == |hist|
  {
    forall i :: 0 <= i < |full| && hist[i].event.action.Noun() == noun && HasRow(s, hist[i].docid) ==>
      full[i] == hist[i].event
  }

  /** The log as it stands, and as it was written. */
  ghost predicate SameEvents(full: seq<Event>, hist: seq<Record>) {
    && |full| == |hist|
    && forall i {:trigger full[i]} {:trigger hist[i]} :: 0 <= i < |full| ==>
         && hist[i].event.sequence == i + 1
         && (full[i] == hist[i].event || full[i] == hist[i].event.(oldValue := None))
  }

  /** How often a row was written, by the events remembered. */
  function Revisions(hist: seq<Record>, noun: Noun, docid: nat): nat {
    if hist == [] then 0
    else
      var last := hist[|hist| - 1];
      Revisions(hist[..|hist| - 1], noun, docid)
      + if last.docid == docid && last.event.action.Noun() == noun && Writes(last.event.action) then 1 else 0
  }

  ghost predicate RevisionsCounted<K(!new), C>(s: Shelf<K, C>, noun: Noun, hist: seq<Record>) {
    forall k :: k in s.rows ==> s.rows[k].revision == Revisions(hist, noun, s.rows[k].docid)
  }

  /** No two rows of one persona share a subject. */
  ghost predicate SubjectsApart<K(!new), C>(s: Shelf<K, C>) {
    forall j, k :: j in s.rows && k in s.rows ==>
      s.rows[j].owner == s.rows[k].owner && s.rows[j].subject == s.rows[k].subject ==> j == k
  }

  /** Whether the last event about a subject was a write; an event that is no write is a forget. */
  function LastIsWrite(hist: seq<Record>, noun: Noun, owner: Owner, subject: string): bool {
    if hist == [] then false
    else
      var last := hist[|hist| - 1].event;
      if last.action.Noun() == noun && last.owner == owner && last.subject == subject then Writes(last.action)
      else LastIsWrite(hist[..|hist| - 1], noun, owner, subject)
  }

  /** In a persona that was never deleted, what is live is what was written and not forgotten
      since. */
  ghost predicate LiveByLastEvent<K(!new), C>(b: Book<K, C>, noun: Noun) {
    forall owner, subject :: owner !in b.deleted ==>
      (HeldLive(b.shelf, owner, subject) <==> LastIsWrite(b.hist, noun, owner, subject))
  }

  ghost predicate Kept<K(!new), C(!new)>(b: Book<K, C>, kind: Kind<C>) {
    && DocidsApart(b.shelf) && IndexesLiveRows(b.shelf) && TextsAgree(b.shelf, kind) && LiveRowsHaveNoTerm(b.shelf)
    && SameEvents(b.full, b.hist)
    && RecordsMatch(b.shelf, kind.noun, b.hist)
    && ValuesHaveRows(b.shelf, kind.noun, b.full, b.hist)
    && RowsKeepValues(b.shelf, kind.noun, b.full, b.hist)
    && RevisionsCounted(b.shelf, kind.noun, b.hist)
    && SubjectsApart(b.shelf) && LiveByLastEvent(b, kind.noun)
  }

  // ---- the table and its index ----------------------------------------------------------

  lemma ShelfKept<K(!new), C(!new)>(b: Book<K, C>, kind: Kind<C>, c: Change<K, C>)
    requires Kept(b, kind) && Allowed(b, kind, c)
    ensures var s := Done(b, kind.noun, c).shelf;
            DocidsApart(s) && IndexesLiveRows(s) && TextsAgree(s, kind) && LiveRowsHaveNoTerm(s)
  {
    match c
    case Insert(k, row, text, _) => InsertKeepsShelf(b.shelf, kind, k, row, text);
    case Rewrite(k, row, text, _) => RewriteKeepsShelf(b.shelf, kind, k, row, text);
    case Hide(k, row, _) => HideKeepsShelf(b.shelf, kind, k, row);
    case Destroy(ks) => WithoutKeepsShelf(b.shelf, kind, ks);
    case Cascade(owner) => WithoutKeepsShelf(b.shelf, kind, OwnedKeys(b.shelf.rows, owner));
  }

  ghost predicate ShelfInStep<K(!new), C(!new)>(s: Shelf<K, C>, kind: Kind<C>) {
    DocidsApart(s) && IndexesLiveRows(s) && TextsAgree(s, kind) && LiveRowsHaveNoTerm(s)
  }

  lemma InsertKeepsShelf<K(!new), C(!new)>(s: Shelf<K, C>, kind: Kind<C>, k: K, row: Row<C>, text: string)
    requires ShelfInStep(s, kind) && k !in s.rows && row.Live() && row.purgeAfter == None
    requires kind.storable(row.content) && kind.found(row.subject, row.content, text)
    ensures ShelfInStep(Inserted(s, k, row, text), kind)
  {
    InsertKeepsIndex(s, k, row, text);
  }

  lemma InsertKeepsIndex<K(!new), C>(s: Shelf<K, C>, k: K, row: Row<C>, text: string)
    requires DocidsApart(s) && IndexesLiveRows(s) && k !in s.rows && row.Live()
    ensures DocidsApart(Inserted(s, k, row, text)) && IndexesLiveRows(Inserted(s, k, row, text))
  {
    var s' := Inserted(s, k, row, text);
    assert s.next + 1 !in s.index;
    forall d | d in s'.index ensures exists j :: j in s'.rows && s'.rows[j].docid == d {
      if d == s.next + 1 {
        assert s'.rows[k].docid == d;
      } else {
        var j :| j in s.rows && s.rows[j].docid == d;
        assert j in s'.rows;
      }
    }
  }

  /** Replacing a row by one with its docid leaves the docids as they were. */
  lemma ReplaceKeepsDocids<K(!new), C>(s: Shelf<K, C>, k: K, row: Row<C>, index: map<nat, string>)
    requires DocidsApart(s) && k in s.rows && row.docid == s.rows[k].docid
    ensures DocidsApart(Shelf(s.rows[k := row], index, s.next))
  {
  }

  lemma RewriteKeepsShelf<K(!new), C(!new)>(s: Shelf<K, C>, kind: Kind<C>, k: K, row: Row<C>, text: string)
    requires ShelfInStep(s, kind) && k in s.rows && row.Live() && row.purgeAfter == None && row.docid == s.rows[k].docid
    requires kind.storable(row.content) && kind.found(row.subject, row.content, text)
    ensures ShelfInStep(Rewritten(s, k, row, text), kind)
  {
    ReplaceKeepsDocids(s, k, row, s.index[row.docid := text]);
    RewriteKeepsIndex(s, k, row, text);
  }

  lemma RewriteKeepsIndex<K(!new), C>(s: Shelf<K, C>, k: K, row: Row<C>, text: string)
    requires DocidsApart(s) && IndexesLiveRows(s) && k in s.rows && row.Live() && row.docid == s.rows[k].docid
    ensures IndexesLiveRows(Rewritten(s, k, row, text))
  {
    var s' := Rewritten(s, k, row, text);
    forall d | d in s'.index ensures exists j :: j in s'.rows && s'.rows[j].docid == d {
      if d == row.docid {
        assert s'.rows[k].docid == d;
      } else {
        var j :| j in s.rows && s.rows[j].docid == d;
        assert j in s'.rows && s'.rows[j].docid == d;
      }
    }
  }

  lemma HideKeepsShelf<K(!new), C(!new)>(s: Shelf<K, C>, kind: Kind<C>, k: K, row: Row<C>)
    requires ShelfInStep(s, kind) && k in s.rows && !row.Live() && row.docid == s.rows[k].docid
    requires row.content == s.rows[k].content
    ensures ShelfInStep(Hidden(s, k, row), kind)
  {
    ReplaceKeepsDocids(s, k, row, s.index - {row.docid});
    HideKeepsIndex(s, k, row);
  }

  lemma HideKeepsIndex<K(!new), C>(s: Shelf<K, C>, k: K, row: Row<C>)
    requires DocidsApart(s) && IndexesLiveRows(s) && k in s.rows && !row.Live() && row.docid == s.rows[k].docid
    ensures IndexesLiveRows(Hidden(s, k, row))
  {
    var s' := Hidden(s, k, row);
    forall d | d in s'.index ensures exists j :: j in s'.rows && s'.rows[j].docid == d {
      var j :| j in s.rows && s.rows[j].docid == d;
      assert j in s'.rows && s'.rows[j].docid == d;
    }
  }

  lemma WithoutKeepsShelf<K(!new), C(!new)>(s: Shelf<K, C>, kind: Kind<C>, ks: set<K>)
    requires ShelfInStep(s, kind)
    ensures ShelfInStep(Without(s, ks), kind)
  {
    WithoutKeepsIndex(s, ks);
  }

  lemma WithoutKeepsIndex<K(!new), C>(s: Shelf<K, C>, ks: set<K>)
    requires DocidsApart(s) && IndexesLiveRows(s)
    ensures DocidsApart(Without(s, ks)) && IndexesLiveRows(Without(s, ks))
  {
    var s' := Without(s, ks);
    forall d | d in s'.index ensures exists j :: j in s'.rows && s'.rows[j].docid == d {
      var j :| j in s.rows && s.rows[j].docid == d;
      assert j !in ks;
      assert j in s'.rows;
    }
    forall k | k in s'.rows ensures s'.rows[k].docid in s'.index <==> s'.rows[k].Live() {
      assert s.rows[k].docid !in Docids(s.rows, ks);
    }
  }

  // ---- the log --------------------------------------------------------------------------

  lemma EventsKept<K(!new), C(!new)>(b: Book<K, C>, kind: Kind<C>, c: Change<K, C>)
    requires Kept(b, kind) && Allowed(b, kind, c)
    ensures SameEvents(Done(b, kind.noun, c).full, Done(b, kind.noun, c).hist)
  {
  }

  lemma RecordsKept<K(!new), C(!new)>(b: Book<K, C>, kind: Kind<C>, c: Change<K, C>)
    requires Kept(b, kind) && Allowed(b, kind, c)
    ensures RecordsMatch(Done(b, kind.noun, c).shelf, kind.noun, Done(b, kind.noun, c).hist)
  {
    var b' := Done(b, kind.noun, c);
    forall i | 0 <= i < |b'.hist| && b'.hist[i].event.action.Noun() == kind.noun
      ensures 1 <= b'.hist[i].docid <= b'.shelf.next
      ensures forall k :: k in b'.shelf.rows && b'.shelf.rows[k].docid == b'.hist[i].docid ==>
                About(b'.hist[i].event, kind.noun, b'.shelf.rows[k])
    {
      if i < |b.hist| {
        assert b'.hist[i] == b.hist[i];
      } else {
        assert !c.Destroy? && !c.Cascade?;
        assert DocidsApart(b.shelf);
      }
    }
  }

  lemma ValuesKept<K(!new), C(!new)>(b: Book<K, C>, kind: Kind<C>, c: Change<K, C>)
    requires Kept(b, kind) && Allowed(b, kind, c)
    ensures var b' := Done(b, kind.noun, c);
            |b'.full| == |b'.hist| && ValuesHaveRows(b'.shelf, kind.noun, b'.full, b'.hist)
  {
    var b' := Done(b, kind.noun, c);
    EventsKept(b, kind, c);
    forall i | 0 <= i < |b'.full| && b'.full[i].action.Noun() == kind.noun && b'.full[i].oldValue.Some?
      ensures HasRow(b'.shelf, b'.hist[i].docid)
    {
      if i == |b.full| {
        assert c.Rewrite? && b'.shelf.rows[c.k].docid == b'.hist[i].docid;
      } else {
        assert b.full[i].oldValue.Some? && b.full[i].action.Noun() == kind.noun;
        var k :| k in b.shelf.rows && b.shelf.rows[k].docid == b.hist[i].docid;
        assert About(b.hist[i].event, kind.noun, b.shelf.rows[k]);
        ValueOutlives(b, kind, c, i, k);
      }
    }
  }

  /** A change either keeps the row a value was copied from, or strips the value. */
  lemma ValueOutlives<K(!new), C(!new)>(b: Book<K, C>, kind: Kind<C>, c: Change<K, C>, i: nat, k: K)
    requires Allowed(b, kind, c) && |b.full| == |b.hist| && i < |b.full| && k in b.shelf.rows
    requires b.full[i].owner == b.shelf.rows[k].owner && b.full[i].subject == b.shelf.rows[k].subject
    requires b.full[i].action.Noun() == kind.noun
    ensures var b' := Done(b, kind.noun, c);
            |b'.full| >= |b.full|
            && (b'.full[i].oldValue.Some? ==> k in b'.shelf.rows && b'.shelf.rows[k].docid == b.shelf.rows[k].docid)
  {
    match c
    case Destroy(ks) =>
      if k in ks {
        var scope := AboutRow(b.shelf.rows[k].owner, kind.noun, b.shelf.rows[k].subject);
        assert scope in Scopes(b.shelf.rows, kind.noun, ks) && Covers(scope, b.full[i]);
      }
    case Cascade(owner) =>
      if b.shelf.rows[k].owner == owner { assert Covers(AboutPersona(owner), b.full[i]); }
    case _ =>
  }

  /** Where a row is after a change, it was before, under the same key, unless it is the new one. */
  lemma RowWasThere<K(!new), C(!new)>(b: Book<K, C>, kind: Kind<C>, c: Change<K, C>, docid: nat)
    requires Allowed(b, kind, c) && HasRow(Done(b, kind.noun, c).shelf, docid) && docid <= b.shelf.next
    ensures exists k :: k in b.shelf.rows && b.shelf.rows[k].docid == docid && k in Done(b, kind.noun, c).shelf.rows
  {
    var s' := Done(b, kind.noun, c).shelf;
    var k :| k in s'.rows && s'.rows[k].docid == docid;
    assert k in b.shelf.rows && b.shelf.rows[k].docid == docid;
  }

  /** What a change strips is about rows it destroys, and no others. */
  lemma StripsOnlyItsOwn<K(!new), C(!new)>(b: Book<K, C>, kind: Kind<C>, c: Change<K, C>, i: nat, k: K)
    requires Allowed(b, kind, c) && SubjectsApart(b.shelf) && i < |b.full|
    requires k in b.shelf.rows && k in Done(b, kind.noun, c).shelf.rows
    requires About(b.full[i], kind.noun, b.shelf.rows[k])
    ensures i < |Done(b, kind.noun, c).full| && Done(b, kind.noun, c).full[i] == b.full[i]
  {
  }

  lemma ValuesStay<K(!new), C(!new)>(b: Book<K, C>, kind: Kind<C>, c: Change<K, C>)
    requires Kept(b, kind) && Allowed(b, kind, c)
    ensures var b' := Done(b, kind.noun, c);
            |b'.full| == |b'.hist| && RowsKeepValues(b'.shelf, kind.noun, b'.full, b'.hist)
  {
    var b' := Done(b, kind.noun, c);
    EventsKept(b, kind, c);
    forall i | 0 <= i < |b'.full| && b'.hist[i].event.action.Noun() == kind.noun && HasRow(b'.shelf, b'.hist[i].docid)
      ensures b'.full[i] == b'.hist[i].event
    {
      if i < |b.full| {
        assert b'.hist[i] == b.hist[i];
        RowWasThere(b, kind, c, b.hist[i].docid);
        var k :| k in b.shelf.rows && b.shelf.rows[k].docid == b.hist[i].docid && k in b'.shelf.rows;
        assert About(b.hist[i].event, kind.noun, b.shelf.rows[k]);
        StripsOnlyItsOwn(b, kind, c, i, k);
      }
    }
  }

  // ---- the count of revisions -------------------------------------------------------------

  lemma {:induction false} UnseenDocidHasNoRevisions<K(!new), C>(s: Shelf<K, C>, noun: Noun, hist: seq<Record>,
                                                                 docid: nat)
    requires RecordsMatch(s, noun, hist) && docid > s.next
    ensures Revisions(hist, noun, docid) == 0
  {
    if hist != [] {
      var rest := hist[..|hist| - 1];
      assert forall i :: 0 <= i < |rest| ==> rest[i] == hist[i];
      UnseenDocidHasNoRevisions(s, noun, rest, docid);
    }
  }

  lemma RevisionsAfter(hist: seq<Record>, e: Event, docid: nat, noun: Noun, d: nat)
    ensures Revisions(Remembered(hist, e, docid), noun, d)
         == Revisions(hist, noun, d) + if docid == d && e.action.Noun() == noun && Writes(e.action) then 1 else 0
  {
    var more := Remembered(hist, e, docid);
    assert more[..|more| - 1] == hist;
  }

  lemma RevisionsKept<K(!new), C(!new)>(b: Book<K, C>, kind: Kind<C>, c: Change<K, C>)
    requires Kept(b, kind) && Allowed(b, kind, c)
    ensures RevisionsCounted(Done(b, kind.noun, c).shelf, kind.noun, Done(b, kind.noun, c).hist)
  {
    var b' := Done(b, kind.noun, c);
    forall k | k in b'.shelf.rows
      ensures b'.shelf.rows[k].revision == Revisions(b'.hist, kind.noun, b'.shelf.rows[k].docid)
    {
      match c
      case Insert(_, _, _, e) =>
        RevisionsAfter(b.hist, e, b.shelf.next + 1, kind.noun, b'.shelf.rows[k].docid);
        UnseenDocidHasNoRevisions(b.shelf, kind.noun, b.hist, b.shelf.next + 1);
      case Rewrite(_, row, _, e) => RevisionsAfter(b.hist, e, row.docid, kind.noun, b'.shelf.rows[k].docid);
      case Hide(_, row, e) => RevisionsAfter(b.hist, e, row.docid, kind.noun, b'.shelf.rows[k].docid);
      case _ =>
    }
  }

  // ---- the last event about a subject -----------------------------------------------------

  lemma LastIsWriteAfter(hist: seq<Record>, e: Event, docid: nat, noun: Noun, owner: Owner, subject: string)
    ensures LastIsWrite(Remembered(hist, e, docid), noun, owner, subject) ==
            if e.action.Noun() == noun && e.owner == owner && e.subject == subject then Writes(e.action)
            else LastIsWrite(hist, noun, owner, subject)
  {
    var more := Remembered(hist, e, docid);
    assert more[..|more| - 1] == hist;
  }

  lemma SubjectsKept<K(!new), C(!new)>(b: Book<K, C>, kind: Kind<C>, c: Change<K, C>)
    requires Kept(b, kind) && Allowed(b, kind, c)
    ensures SubjectsApart(Done(b, kind.noun, c).shelf)
  {
  }

  /** What a change does to whether a subject is live. */
  lemma LiveAfter<K(!new), C(!new)>(b: Book<K, C>, kind: Kind<C>, c: Change<K, C>, owner: Owner, subject: string)
    requires SubjectsApart(b.shelf) && Allowed(b, kind, c)
    ensures var s' := Done(b, kind.noun, c).shelf;
            HeldLive(s', owner, subject) <==>
            match c
            case Insert(_, row, _, _) =>
                (row.owner == owner && row.subject == subject) || HeldLive(b.shelf, owner, subject)
            case Rewrite(_, row, _, _) =>
                (row.owner == owner && row.subject == subject) || HeldLive(b.shelf, owner, subject)
            case Hide(_, row, _) => !(row.owner == owner && row.subject == subject) && HeldLive(b.shelf, owner, subject)
            case Destroy(_) => HeldLive(b.shelf, owner, subject)
            case Cascade(o) => o != owner && HeldLive(b.shelf, owner, subject)
  {
    var s' := Done(b, kind.noun, c).shelf;
    if HeldLive(b.shelf, owner, subject) {
      var k :| k in b.shelf.rows && b.shelf.rows[k].owner == owner && b.shelf.rows[k].subject == subject
        && b.shelf.rows[k].Live();
      assert k in s'.rows || (c.Cascade? && c.owner == owner);
      assert k in s'.rows ==> s'.rows[k].owner == owner && s'.rows[k].subject == subject;
    }
    match c
    case Insert(k, row, _, _) => assert s'.rows[k].Live();
    case Rewrite(k, row, _, _) => assert s'.rows[k].Live();
    case _ =>
  }

  lemma LastEventsKept<K(!new), C(!new)>(b: Book<K, C>, kind: Kind<C>, c: Change<K, C>)
    requires Kept(b, kind) && Allowed(b, kind, c)
    ensures LiveByLastEvent(Done(b, kind.noun, c), kind.noun)
  {
    var b' := Done(b, kind.noun, c);
    forall owner, subject | owner !in b'.deleted
      ensures HeldLive(b'.shelf, owner, subject) <==> LastIsWrite(b'.hist, kind.noun, owner, subject)
    {
      LiveAfter(b, kind, c, owner, subject);
      match c
      case Insert(_, _, _, e) => LastIsWriteAfter(b.hist, e, b.shelf.next + 1, kind.noun, owner, subject);
      case Rewrite(_, row, _, e) => LastIsWriteAfter(b.hist, e, row.docid, kind.noun, owner, subject);
      case Hide(_, row, e) => LastIsWriteAfter(b.hist, e, row.docid, kind.noun, owner, subject);
      case _ =>
    }
  }

  /** Every allowed change keeps everything. */
  lemma ChangeKeeps<K(!new), C(!new)>(b: Book<K, C>, kind: Kind<C>, c: Change<K, C>)
    requires Kept(b, kind) && Allowed(b, kind, c)
    ensures Kept(Done(b, kind.noun, c), kind)
  {
    ShelfKept(b, kind, c);
    EventsKept(b, kind, c);
    RecordsKept(b, kind, c);
    ValuesKept(b, kind, c);
    ValuesStay(b, kind, c);
    RevisionsKept(b, kind, c);
    SubjectsKept(b, kind, c);
    LastEventsKept(b, kind, c);
  }

  // ---- what other kinds of events do to a book ----------------------------------------------

  /** An event of another kind, or a persona's, changes nothing here. */
  lemma OtherEventKeeps<K(!new), C(!new)>(b: Book<K, C>, kind: Kind<C>, e: Event, docid: nat)
    requires Kept(b, kind) && e.action.Noun() != kind.noun
    ensures Kept(Book(b.shelf, Spoken(b.full, e), Remembered(b.hist, e, docid), b.deleted), kind)
  {
    forall owner, subject | owner !in b.deleted
      ensures HeldLive(b.shelf, owner, subject) <==>
                LastIsWrite(Remembered(b.hist, e, docid), kind.noun, owner, subject)
    {
      LastIsWriteAfter(b.hist, e, docid, kind.noun, owner, subject);
    }
    forall k | k in b.shelf.rows
      ensures b.shelf.rows[k].revision == Revisions(Remembered(b.hist, e, docid), kind.noun, b.shelf.rows[k].docid)
    {
      RevisionsAfter(b.hist, e, docid, kind.noun, b.shelf.rows[k].docid);
    }
  }

  /** Stripping the values of rows of another kind changes nothing here. */
  lemma StripKeeps<K(!new), C(!new)>(b: Book<K, C>, kind: Kind<C>, scopes: set<Scope>)
    requires Kept(b, kind) && forall s :: s in scopes ==> s.AboutRow? && s.noun != kind.noun
    ensures Kept(Book(b.shelf, Struck(b.full, scopes), b.hist, b.deleted), kind)
  {
  }

  /** A change to one book keeps the other, which shares its log: every event is about the one,
      and so is every strip. */
  lemma OtherBookKept<K(!new), C(!new), L(!new), D(!new)>(b: Book<K, C>, kind: Kind<C>, c: Change<K, C>,
                                                          other: Book<L, D>, otherKind: Kind<D>)
    requires Allowed(b, kind, c) && !c.Cascade? && Kept(other, otherKind) && kind.noun != otherKind.noun
    requires other.full == b.full && other.hist == b.hist
    ensures Kept(Book(other.shelf, Done(b, kind.noun, c).full, Done(b, kind.noun, c).hist, other.deleted), otherKind)
  {
    match c
    case Destroy(ks) => StripKeeps(other, otherKind, Scopes(b.shelf.rows, kind.noun, ks));
    case Insert(_, _, _, e) =>
      OtherEventKeeps(other, otherKind, e, b.shelf.next + 1);
      SaidTogether(b, kind, c, e, b.shelf.next + 1);
    case Rewrite(_, row, _, e) =>
      OtherEventKeeps(other, otherKind, e, row.docid);
      SaidTogether(b, kind, c, e, row.docid);
    case Hide(_, row, e) =>
      OtherEventKeeps(other, otherKind, e, row.docid);
      SaidTogether(b, kind, c, e, row.docid);
  }

  /** What a change with an event adds to the two logs. */
  lemma SaidTogether<K(!new), C(!new)>(b: Book<K, C>, kind: Kind<C>, c: Change<K, C>, e: Event, docid: nat)
    requires (c.Insert? && e == c.event && docid == b.shelf.next + 1)
             || ((c.Rewrite? || c.Hide?) && e == c.event && docid == c.row.docid)
    ensures Done(b, kind.noun, c).full == Spoken(b.full, e)
    ensures Done(b, kind.noun, c).hist == Remembered(b.hist, e, docid)
  {
  }
}
