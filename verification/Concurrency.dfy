/** The store behind the executor: what holds of every state of the machine holds at every read,
    whatever the schedule. */
module Concurrency {
  import opened Text
  import opened Tables
  import opened Machine
  import opened Reachable
  import opened Executor

  /** A callable the stores submit: run whole, it is one transaction of the machine or nothing. */
  ghost predicate StoreJob<V(!new)>(u: Unicode, limits: Limits, job: Job<World, V>) {
    forall c: Conn<World> ::
      Whole(job, c).0.db == c.db || IsTransaction(u, limits, c.db, Whole(job, c).0.db)
  }

  ghost predicate IsTransaction(u: Unicode, limits: Limits, w: World, w': World) {
    exists command :: Possible(u, w.db, command) && w' == Next(w, limits, command)
  }

  lemma StoreJobKeeps<V(!new)>(u: Unicode, limits: Limits, job: Job<World, V>, holds: World -> bool)
    requires StoreJob(u, limits, job) && forall w :: holds(w) <==> Good(u, w, limits)
    ensures KeepsWhole(job, holds)
  {
    forall c: Conn<World> | holds(c.db) ensures holds(Whole(job, c).0.db) {
      if Whole(job, c).0.db != c.db {
        var command :| Possible(u, c.db.db, command) && Whole(job, c).0.db == Next(c.db, limits, command);
        GoodKept(u, c.db, limits, command);
      }
    }
  }

  /** Index and tables in step, no copy of a destroyed row in the log, no credential stored, and
      the rest of what is good: true of the state every callable starts from, however the
      callables' statements, the submits and the cancellations fall between one another. */
  lemma GoodUnderAnySchedule<V(!new)>(u: Unicode, limits: Limits, w: World, events: seq<Occurrence<World, V>>)
    requires Good(u, w, limits) && Schedule(Fresh<World, V>(w), events)
    requires forall i :: 0 <= i < |Play(Fresh<World, V>(w), events).submitted| ==>
               StoreJob(u, limits, Play(Fresh<World, V>(w), events).submitted[i])
    ensures var st := Play(Fresh<World, V>(w), events);
            && Good(u, OnDisk(st), limits)
            && forall i :: 0 <= i <= |st.ran| ==> Good(u, Fold(Conn(w, true), st.ran[..i]).db, limits)
  {
    var st := Play(Fresh<World, V>(w), events);
    ghost var holds := (x: World) => Good(u, x, limits);
    forall i | 0 <= i < |st.submitted| ensures KeepsWhole(st.submitted[i], holds) {
      StoreJobKeeps(u, limits, st.submitted[i], holds);
    }
    InvariantUnderAnySchedule(w, events, holds);
  }
}
