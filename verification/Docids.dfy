/** Docids are handed out once and for all. */
module Docids {
  import opened Text
  import opened Tables
  import opened Storage
  import opened Transactions
  import opened Machine
  import opened Reachable

  /** The counter only grows, and a row whose docid is not new had it before. */
  ghost predicate DocidsGoOn<K(!new), C>(s: Shelf<K, C>, s': Shelf<K, C>) {
    && s.next <= s'.next
    && forall k :: k in s'.rows && s'.rows[k].docid <= s.next ==> k in s.rows && s.rows[k].docid == s'.rows[k].docid
  }

  lemma SetFieldDocids(t: Tables, limits: Limits, r: SetRequest, o: Outside)
    ensures DocidsGoOn(t.fields, SetField(t, limits, r, o).After(t).fields)
  {
  }

  lemma ForgetFieldDocids(t: Tables, limits: Limits, r: ForgetRequest, o: Outside)
    ensures DocidsGoOn(t.fields, ForgetField(t, limits, r, o).After(t).fields)
  {
  }

  lemma DocidsStep(t: Tables, limits: Limits, c: Command)
    requires Named(t)
    ensures DocidsGoOn(t.fields, Apply(t, limits, c).fields) && DocidsGoOn(t.notes, Apply(t, limits, c).notes)
  {
    match c
    case SetFieldCmd(r, o) => SetFieldDocids(t, limits, r, o); SetFieldOnlyTouches(t, limits, r, o);
    case ForgetFieldCmd(r, o) => ForgetFieldDocids(t, limits, r, o); ForgetFieldOnlyTouches(t, limits, r, o);
    case _ =>
  }

  /** Over any run, a docid once handed out is held later only by the row that holds it now:
      one given up is never given to anything else. */
  lemma {:induction false} DocidsNeverReused(u: Unicode, w: World, limits: Limits, cs: seq<Command>)
    requires Named(w.db) && PossibleRun(u, w, limits, cs)
    ensures DocidsGoOn(w.db.fields, Run(w, limits, cs).db.fields)
    ensures DocidsGoOn(w.db.notes, Run(w, limits, cs).db.notes)
    decreases |cs|
  {
    if cs != [] {
      DocidsStep(w.db, limits, cs[0]);
      NamesKept(u, w.db, limits, cs[0]);
      DocidsNeverReused(u, Next(w, limits, cs[0]), limits, cs[1..]);
    }
  }
}
