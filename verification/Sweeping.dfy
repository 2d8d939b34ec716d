/** What a number of sweeps do together, when nothing else writes: they are one big sweep, and
    exactly so many of them leave nothing due. */
module Sweeping {
  import opened Wrappers
  import opened Tables
  import opened Transactions
  import opened Due

  /** What one sweep destroyed. */
  datatype Sweep = Sweep(fields: set<FieldKey>, notes: set<string>)

  function Swept(t: Tables, s: Sweep): Tables {
    DestroyNotes(DestroyFields(t, s.fields), s.notes)
  }

  function SweptAll(t: Tables, sweeps: seq<Sweep>): Tables {
    if sweeps == [] then t else Swept(SweptAll(t, sweeps[..|sweeps| - 1]), sweeps[|sweeps| - 1])
  }

  /** Each sweep destroys, of either kind, a batch of the rows due longest. */
  ghost predicate SweepsOf(t: Tables, now: Instant, batch: nat, sweeps: seq<Sweep>) {
    sweeps == [] ||
    var before := SweptAll(t, sweeps[..|sweeps| - 1]);
    var last := sweeps[|sweeps| - 1];
    && SweepsOf(t, now, batch, sweeps[..|sweeps| - 1])
    && OldestDue(before.fields.rows, now, batch, last.fields)
    && OldestDue(before.notes.rows, now, batch, last.notes)
  }

  function GoneFields(sweeps: seq<Sweep>): set<FieldKey> {
    if sweeps == [] then {} else GoneFields(sweeps[..|sweeps| - 1]) + sweeps[|sweeps| - 1].fields
  }

  function GoneNotes(sweeps: seq<Sweep>): set<string> {
    if sweeps == [] then {} else GoneNotes(sweeps[..|sweeps| - 1]) + sweeps[|sweeps| - 1].notes
  }

  /** The sum of what the sweeps returned. */
  function Purged(sweeps: seq<Sweep>): nat {
    if sweeps == [] then 0
    else Purged(sweeps[..|sweeps| - 1]) + |sweeps[|sweeps| - 1].fields| + |sweeps[|sweeps| - 1].notes|
  }

  // ---- one kind of row ----------------------------------------------------------------------

  /** Picking the oldest `m` and then the oldest `n` of the rest is picking the oldest `m + n`. */
  lemma PickingOn<K(!new), C>(rows: map<K, Row<C>>, now: Instant, m: nat, n: nat, first: set<K>, second: set<K>)
    requires OldestDue(rows, now, m, first) && OldestDue(rows - first, now, n, second)
    ensures first !! second && OldestDue(rows, now, m + n, first + second)
  {
    var due := DueKeys(rows, now);
    assert DueKeys(rows - first, now) == due - first;
    assert |first + second| == |first| + |second|;
    forall p, q | p in first + second && q in due - (first + second)
      ensures rows[p].purgeAfter.value <= rows[q].purgeAfter.value
    {
      assert q in due - first;
      if p in second {
        assert q in DueKeys(rows - first, now) - second;
        assert (rows - first)[p].purgeAfter.value <= (rows - first)[q].purgeAfter.value;
      }
    }
  }

  lemma PickedIsGone<K(!new), C>(rows: map<K, Row<C>>, now: Instant, limit: nat, picked: set<K>)
    requires OldestDue(rows, now, limit, picked)
    ensures DueKeys(rows - picked, now) == DueKeys(rows, now) - picked
    ensures |DueKeys(rows - picked, now)| == |DueKeys(rows, now)| - |picked|
    ensures DueKeys(rows - picked, now) == {} <==> |DueKeys(rows, now)| <= limit
  {
    assert DueKeys(rows - picked, now) == DueKeys(rows, now) - picked;
  }

  lemma OneMoreSweep<K(!new), C>(rows: map<K, Row<C>>, now: Instant, n: nat, batch: nat, gone: set<K>,
                                 left: map<K, Row<C>>, last: set<K>)
    requires OldestDue(rows, now, n * batch, gone) && left == rows - gone && OldestDue(left, now, batch, last)
    ensures OldestDue(rows, now, (n + 1) * batch, gone + last) && |gone + last| == |gone| + |last|
    ensures left - last == rows - (gone + last)
  {
    OneMoreBatch(n, batch);
    OneMorePicking(rows, now, n * batch, batch, gone, left, last);
  }

  lemma OneMoreBatch(n: nat, batch: nat)
    ensures n * batch >= 0 && (n + 1) * batch == n * batch + batch
  {
  }

  lemma OneMorePicking<K(!new), C>(rows: map<K, Row<C>>, now: Instant, m: nat, batch: nat, gone: set<K>,
                                   left: map<K, Row<C>>, last: set<K>)
    requires OldestDue(rows, now, m, gone) && left == rows - gone && OldestDue(left, now, batch, last)
    ensures OldestDue(rows, now, m + batch, gone + last) && |gone + last| == |gone| + |last|
    ensures left - last == rows - (gone + last)
  {
    PickingOn(rows, now, m, batch, gone, last);
  }

  // ---- the whole store ------------------------------------------------------------------------

  lemma SweptRows(t: Tables, s: Sweep)
    ensures Swept(t, s).fields.rows == t.fields.rows - s.fields
    ensures Swept(t, s).notes.rows == t.notes.rows - s.notes
    ensures Swept(t, s).personas == t.personas
  {
  }

  /** `n` sweeps of a batch each destroy what one sweep of `n` batches might have, and nothing
      else: so none of the rows destroyed was due later than one left behind. */
  lemma {:induction false} SweepsAreOneSweep(t: Tables, now: Instant, batch: nat, sweeps: seq<Sweep>)
    requires SweepsOf(t, now, batch, sweeps)
    ensures OldestDue(t.fields.rows, now, |sweeps| * batch, GoneFields(sweeps))
    ensures OldestDue(t.notes.rows, now, |sweeps| * batch, GoneNotes(sweeps))
    ensures SweptAll(t, sweeps).fields.rows == t.fields.rows - GoneFields(sweeps)
    ensures SweptAll(t, sweeps).notes.rows == t.notes.rows - GoneNotes(sweeps)
    ensures Purged(sweeps) == |GoneFields(sweeps)| + |GoneNotes(sweeps)|
  {
    if sweeps == [] {
      assert t.fields.rows - {} == t.fields.rows && t.notes.rows - {} == t.notes.rows;
    } else {
      var n := |sweeps| - 1;
      var rest, last := sweeps[..n], sweeps[n];
      var before := SweptAll(t, rest);
      SweepsAreOneSweep(t, now, batch, rest);
      SweptRows(before, last);
      OneMoreSweep(t.fields.rows, now, n, batch, GoneFields(rest), before.fields.rows, last.fields);
      OneMoreSweep(t.notes.rows, now, n, batch, GoneNotes(rest), before.notes.rows, last.notes);
    }
  }

  /** How many sweeps it takes: the larger backlog over the batch, rounded up. */
  function SweepsNeeded(fields: nat, notes: nat, batch: nat): int
    requires batch >= 1
  {
    (Max(fields, notes) + batch - 1) / batch
  }

  lemma MoreIsMore(a: int, c: int, b: nat)
    requires a <= c
    ensures a * b <= c * b
  {
  }

  lemma CeilingBound(x: nat, b: nat, n: nat)
    requires b >= 1
    ensures n >= (x + b - 1) / b <==> n * b >= x
  {
    var q := (x + b - 1) / b;
    assert x + b - 1 == q * b + (x + b - 1) % b;
    if n >= q {
      MoreIsMore(q, n, b);
    } else {
      MoreIsMore(n + 1, q, b);
      assert (n + 1) * b == n * b + b;
    }
  }

  lemma BothDrained<K(!new), C, L(!new), D>(fields: map<K, Row<C>>, notes: map<L, Row<D>>, now: Instant, batch: nat,
                                            n: nat, fs: set<K>, ns: set<L>)
    requires batch >= 1 && OldestDue(fields, now, n * batch, fs) && OldestDue(notes, now, n * batch, ns)
    ensures DueKeys(fields - fs, now) == {} && DueKeys(notes - ns, now) == {} <==>
            n >= SweepsNeeded(|DueKeys(fields, now)|, |DueKeys(notes, now)|, batch)
  {
    CeilingBound(Max(|DueKeys(fields, now)|, |DueKeys(notes, now)|), batch, n);
    PickedIsGone(fields, now, n * batch, fs);
    PickedIsGone(notes, now, n * batch, ns);
  }

  lemma AllPicked<K(!new), C>(rows: map<K, Row<C>>, now: Instant, limit: nat, picked: set<K>)
    requires OldestDue(rows, now, limit, picked)
    ensures |picked| <= |DueKeys(rows, now)|
    ensures DueKeys(rows - picked, now) == {} <==> |picked| == |DueKeys(rows, now)|
    ensures DueKeys(rows - picked, now) == {} ==> picked == DueKeys(rows, now)
  {
    PickedIsGone(rows, now, limit, picked);
  }

  lemma NothingLeft<K(!new), C, L(!new), D>(fields: map<K, Row<C>>, notes: map<L, Row<D>>, now: Instant, limit: nat,
                                            fs: set<K>, ns: set<L>)
    requires OldestDue(fields, now, limit, fs) && OldestDue(notes, now, limit, ns)
    ensures var drained := DueKeys(fields - fs, now) == {} && DueKeys(notes - ns, now) == {};
            && (drained <==> |fs| + |ns| == |DueKeys(fields, now)| + |DueKeys(notes, now)|)
            && (drained ==> fs == DueKeys(fields, now) && ns == DueKeys(notes, now))
  {
    AllPicked(fields, now, limit, fs);
    AllPicked(notes, now, limit, ns);
  }

  predicate NothingDue(t: Tables, now: Instant) {
    DueKeys(t.fields.rows, now) == {} && DueKeys(t.notes.rows, now) == {}
  }

  ghost predicate Drains(t: Tables, t': Tables, now: Instant, batch: nat, n: nat, purged: nat)
    requires batch >= 1
  {
    var dueFields, dueNotes := DueKeys(t.fields.rows, now), DueKeys(t.notes.rows, now);
    && (NothingDue(t', now) <==> n >= SweepsNeeded(|dueFields|, |dueNotes|, batch))
    && (NothingDue(t', now) <==> purged == |dueFields| + |dueNotes|)
    && (NothingDue(t', now) ==> t'.fields.rows == t.fields.rows - dueFields && t'.notes.rows == t.notes.rows - dueNotes)
  }

  lemma OneBigSweepDrains(t: Tables, t': Tables, now: Instant, batch: nat, n: nat, fs: set<FieldKey>, ns: set<string>)
    requires batch >= 1 && OldestDue(t.fields.rows, now, n * batch, fs) && OldestDue(t.notes.rows, now, n * batch, ns)
    requires t'.fields.rows == t.fields.rows - fs && t'.notes.rows == t.notes.rows - ns
    ensures Drains(t, t', now, batch, n, |fs| + |ns|)
  {
    NothingLeft(t.fields.rows, t.notes.rows, now, n * batch, fs, ns);
    BothDrained(t.fields.rows, t.notes.rows, now, batch, n, fs, ns);
  }

  /** Nothing is due after so many sweeps, and after no fewer.  By then the counts they returned
      add up to everything that was due, and what is left is every row that was not due. */
  lemma SweepingDrains(t: Tables, now: Instant, batch: nat, sweeps: seq<Sweep>)
    requires batch >= 1 && SweepsOf(t, now, batch, sweeps)
    ensures Drains(t, SweptAll(t, sweeps), now, batch, |sweeps|, Purged(sweeps))
  {
    SweepsAreOneSweep(t, now, batch, sweeps);
    OneBigSweepDrains(t, SweptAll(t, sweeps), now, batch, |sweeps|, GoneFields(sweeps), GoneNotes(sweeps));
  }

  /** However many sweeps there were, a row that is not due is untouched by them. */
  lemma NotDueIsUntouched(t: Tables, now: Instant, batch: nat, sweeps: seq<Sweep>)
    requires SweepsOf(t, now, batch, sweeps)
    ensures forall k :: k in t.fields.rows && !t.fields.rows[k].PastDue(now) ==>
              k in SweptAll(t, sweeps).fields.rows && SweptAll(t, sweeps).fields.rows[k] == t.fields.rows[k]
    ensures forall k :: k in t.notes.rows && !t.notes.rows[k].PastDue(now) ==>
              k in SweptAll(t, sweeps).notes.rows && SweptAll(t, sweeps).notes.rows[k] == t.notes.rows[k]
  {
    SweepsAreOneSweep(t, now, batch, sweeps);
  }
}
