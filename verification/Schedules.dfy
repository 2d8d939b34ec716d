/** What comes of a schedule, said of its events alone: what was handed in, what was given up,
    and that the rest is run and answered. */
module Schedules {
  import opened Wrappers
  import opened Executor

  // ---- what was handed in ---------------------------------------------------------------------

  /** The callables an event hands in: every submit one, and the first close one. */
  function HandedBy<S, V>(e: Occurrence<S, V>, closed: bool): seq<Job<S, V>> {
    match e
    case Submit(job) => [job]
    case Close(id, hand) => if closed then [] else [Job(id, Closing, [], hand)]
    case _ => []
  }

  function Handed<S, V>(events: seq<Occurrence<S, V>>, closed: bool): seq<Job<S, V>> {
    if events == [] then [] else HandedBy(events[0], closed) + Handed(events[1..], closed || events[0].Close?)
  }

  lemma OneMoreHanded<S(!new), V(!new)>(st: State<S, V>, e: Occurrence<S, V>)
    requires Enabled(st, e)
    ensures Step(st, e).submitted == st.submitted + HandedBy(e, st.closed)
    ensures Step(st, e).closed <==> st.closed || e.Close?
  {
  }

  lemma {:induction false} SubmittedIsHanded<S(!new), V(!new)>(st: State<S, V>, events: seq<Occurrence<S, V>>)
    requires Schedule(st, events)
    ensures Play(st, events).submitted == st.submitted + Handed(events, st.closed)
    decreases |events|
  {
    if events != [] {
      var st', first := Step(st, events[0]), HandedBy(events[0], st.closed);
      OneMoreHanded(st, events[0]);
      SubmittedIsHanded(st', events[1..]);
      Regrouped(st.submitted, first, Handed(events[1..], st'.closed));
    }
  }

  lemma Regrouped<T>(a: seq<T>, b: seq<T>, c: seq<T>)
    ensures (a + b) + c == a + (b + c)
  {
  }

  // ---- what was given up ----------------------------------------------------------------------

  /** The `i`th event cancels the callable and finds it waiting. */
  ghost predicate GivenUp<S(!new), V(!new)>(st: State<S, V>, events: seq<Occurrence<S, V>>, i: nat, id: nat) {
    && i < |events| && events[i] == Cancel(id)
    && Schedule(st, events[..i]) && HasId(Play(st, events[..i]).queue, id)
  }

  lemma GivenUpLater<S(!new), V(!new)>(st: State<S, V>, events: seq<Occurrence<S, V>>, i: nat, id: nat)
    requires events != [] && Enabled(st, events[0])
    ensures GivenUp(st, events, i + 1, id) <==> GivenUp(Step(st, events[0]), events[1..], i, id)
  {
    if i < |events| - 1 {
      assert events[..i + 1][1..] == events[1..][..i] && events[..i + 1][0] == events[0];
    }
  }

  /** A callable is dropped exactly if somebody cancelled it while it waited. */
  lemma {:induction false} DroppedIsGivenUp<S(!new), V(!new)>(st: State<S, V>, events: seq<Occurrence<S, V>>, id: nat)
    requires Schedule(st, events)
    ensures id in Play(st, events).dropped <==> id in st.dropped || exists i: nat :: GivenUp(st, events, i, id)
    decreases |events|
  {
    if events != [] {
      DroppedIsGivenUp(Step(st, events[0]), events[1..], id);
      DroppedNow(st, events, id);
      GivenUpNowOrLater(st, events, id);
    }
  }

  lemma DroppedNow<S(!new), V(!new)>(st: State<S, V>, events: seq<Occurrence<S, V>>, id: nat)
    requires events != [] && Enabled(st, events[0])
    ensures id in Step(st, events[0]).dropped <==> id in st.dropped || GivenUp(st, events, 0, id)
  {
    assert events[..0] == [];
  }

  lemma GivenUpNowOrLater<S(!new), V(!new)>(st: State<S, V>, events: seq<Occurrence<S, V>>, id: nat)
    requires events != [] && Enabled(st, events[0])
    ensures (exists i: nat :: GivenUp(st, events, i, id)) <==>
              GivenUp(st, events, 0, id) || exists i: nat :: GivenUp(Step(st, events[0]), events[1..], i, id)
  {
    if i: nat :| GivenUp(Step(st, events[0]), events[1..], i, id) { GivenUpLater(st, events, i, id); }
    if i: nat :| GivenUp(st, events, i, id) {
      if i > 0 { GivenUpLater(st, events, i - 1, id); }
    }
  }

  /** Nobody is kept from giving up, from closing, or, until the worker has gone, from handing in a
      callable of their own. */
  lemma NobodyIsKeptWaiting<S(!new), V(!new)>(st: State<S, V>, id: nat, job: Job<S, V>, hand: V)
    ensures Enabled(st, Cancel(id))
    ensures !st.shut && !HasId(st.submitted, id) ==> Enabled(st, Close(id, hand))
    ensures !st.shut && !HasId(st.submitted, job.id) && job.mode.Transaction? ==> Enabled(st, Submit(job))
    ensures !st.shut && !HasId(st.submitted, job.id) && job.mode.Reading? && ReadOnly(job) ==> Enabled(st, Submit(job))
    ensures st.closed && !st.open ==> Enabled(st, Shutdown)
  {
  }

  // ---- nothing is lost --------------------------------------------------------------------------

  lemma {:induction false} KeepOfNothingDropped<S, V>(jobs: seq<Job<S, V>>)
    ensures Keep(jobs, {}) == jobs
  {
    if jobs != [] {
      KeepOfNothingDropped(jobs[..|jobs| - 1]);
    }
  }

  /** From an idle worker on an open connection: what ran, what is running and what waits are the
      callables handed in, in the order they were, less those given up while they waited. */
  lemma NothingIsLost<S(!new), V(!new)>(db: S, events: seq<Occurrence<S, V>>)
    requires Schedule(Fresh(db), events)
    ensures var st := Play(Fresh(db), events);
            && st.ran + (Now(st.worker) + st.queue) == Keep(Handed(events, false), st.dropped)
            && forall id :: id in st.dropped <==> exists i: nat :: GivenUp(Fresh<S, V>(db), events, i, id)
  {
    AnyScheduleIsSequential(db, events);
    SubmittedIsHanded(Fresh(db), events);
    assert [] + Handed(events, false) == Handed(events, false);
    forall id
      ensures id in Play(Fresh(db), events).dropped <==> exists i: nat :: GivenUp(Fresh<S, V>(db), events, i, id)
    {
      DroppedIsGivenUp(Fresh(db), events, id);
    }
  }

  /** And if nobody cancels, exactly the callables handed in. */
  lemma WithoutCancels<S(!new), V(!new)>(db: S, events: seq<Occurrence<S, V>>)
    requires Schedule(Fresh(db), events) && forall i :: 0 <= i < |events| ==> !events[i].Cancel?
    ensures var st := Play(Fresh(db), events);
            st.ran + (Now(st.worker) + st.queue) == Handed(events, false)
  {
    NothingIsLost(db, events);
    var st := Play(Fresh(db), events);
    forall id ensures id !in st.dropped {
      if i: nat :| GivenUp(Fresh<S, V>(db), events, i, id) { assert false; }
    }
    assert st.dropped == {};
    KeepOfNothingDropped(Handed(events, false));
  }

  // ---- and everything is answered -----------------------------------------------------------------

  ghost predicate IsWork<S(!new), V(!new)>(e: Occurrence<S, V>) {
    e.Start? || e.Statement? || e.Finish?
  }

  /** How much there is left to do: for a waiting callable its statements, a start and an end. */
  function Backlog<S, V>(jobs: seq<Job<S, V>>): nat {
    if jobs == [] then 0 else |jobs[0].statements| + 2 + Backlog(jobs[1..])
  }

  function WorkLeft<S, V>(st: State<S, V>): int {
    Backlog(st.queue) + if st.worker.Active? then |st.worker.job.statements| - st.worker.at + 1 else 0
  }

  lemma StartIsWork<S(!new), V(!new)>(st: State<S, V>)
    requires st.worker.Idle? && st.queue != []
    ensures 0 <= WorkLeft(Started(st)) < WorkLeft(st)
    ensures Started(st).submitted == st.submitted && Started(st).dropped == st.dropped
  {
    assert Backlog(st.queue) == |st.queue[0].statements| + 2 + Backlog(st.queue[1..]);
  }

  lemma StatementIsWork<S(!new), V(!new)>(st: State<S, V>)
    requires st.worker.Active? && st.worker.at < |st.worker.job.statements|
    ensures 0 <= WorkLeft(Stated(st)) < WorkLeft(st)
    ensures Stated(st).submitted == st.submitted && Stated(st).dropped == st.dropped
  {
  }

  /** The worker is never stuck: where there is work, its next move is possible, and leaves less. */
  lemma NeverStuck<S(!new), V(!new)>(st: State<S, V>) returns (e: Occurrence<S, V>)
    requires st.worker.Active? ==> st.worker.at <= |st.worker.job.statements|
    requires st.worker.Active? || st.queue != []
    ensures IsWork(e) && Enabled(st, e) && 0 <= WorkLeft(Step(st, e)) < WorkLeft(st)
    ensures Step(st, e).submitted == st.submitted && Step(st, e).dropped == st.dropped
  {
    if st.worker.Idle? {
      e := Start;
      StartIsWork(st);
    } else if st.worker.at < |st.worker.job.statements| {
      e := Statement;
      StatementIsWork(st);
    } else {
      e := Finish;
    }
  }

  /** Moves of the worker alone that bring everything there is to an end. */
  ghost predicate Finishing<S(!new), V(!new)>(st: State<S, V>, work: seq<Occurrence<S, V>>) {
    && Schedule(st, work) && (forall i :: 0 <= i < |work| ==> IsWork(work[i]))
    && Play(st, work).worker.Idle? && Play(st, work).queue == []
    && Play(st, work).submitted == st.submitted && Play(st, work).dropped == st.dropped
  }

  lemma WorkAhead<S(!new), V(!new)>(st: State<S, V>, e: Occurrence<S, V>, rest: seq<Occurrence<S, V>>)
    requires IsWork(e) && Enabled(st, e) && Finishing(Step(st, e), rest)
    requires Step(st, e).submitted == st.submitted && Step(st, e).dropped == st.dropped
    ensures Finishing(st, [e] + rest)
  {
    assert ([e] + rest)[0] == e && ([e] + rest)[1..] == rest;
  }

  lemma {:induction false} WorkRunsOut<S(!new), V(!new)>(c: Conn<S>, st: State<S, V>, left: int)
      returns (work: seq<Occurrence<S, V>>)
    requires Sequential(c, st) && left == WorkLeft(st)
    ensures Finishing(st, work)
    decreases left
  {
    if st.worker.Active? || st.queue != [] {
      var e := NeverStuck(st);
      StepIsSequential(c, st, e);
      var rest := WorkRunsOut(c, Step(st, e), WorkLeft(Step(st, e)));
      WorkAhead(st, e, rest);
      work := [e] + rest;
    } else {
      work := [];
    }
  }

  /** However things stand, the worker can finish them on its own: then every callable that was
      handed in and not given up has run, in the order they were handed in, and every one of them
      has been answered what it is answered when they run whole, one after another. */
  lemma EverythingIsAnswered<S(!new), V(!new)>(c: Conn<S>, st: State<S, V>) returns (work: seq<Occurrence<S, V>>)
    requires Sequential(c, st)
    ensures Finishing(st, work)
    ensures var done := Play(st, work);
            && done.ran == Keep(st.submitted, st.dropped)
            && AnswersAreSequential(c, done.ran, done.answers)
            && OnDisk(done) == Fold(c, done.ran).db
  {
    work := WorkRunsOut(c, st, WorkLeft(st));
    ScheduleIsSequential(c, st, work);
    var done := Play(st, work);
    assert done.ran + ([] + done.queue) == done.ran;
  }

  // ---- what running whole means ---------------------------------------------------------------------

  /** The moments of a callable that goes through: each statement takes one to the next. */
  ghost predicate GoesThrough<S(!new), V(!new)>(statements: seq<(S, V) -> Option<(S, V)>>, moments: seq<(S, V)>) {
    && |moments| == |statements| + 1
    && forall i :: 0 <= i < |statements| ==> statements[i](moments[i].0, moments[i].1) == Some(moments[i + 1])
  }

  lemma {:induction false} ExecuteGoesThrough<S(!new), V(!new)>(statements: seq<(S, V) -> Option<(S, V)>>, s: S, v: V)
      returns (moments: seq<(S, V)>)
    ensures Execute(statements, s, v).Some? ==>
              && GoesThrough(statements, moments) && moments[0] == (s, v)
              && Execute(statements, s, v) == Some(moments[|statements|])
    decreases |statements|
  {
    if statements == [] {
      moments := [(s, v)];
    } else {
      var n := |statements| - 1;
      moments := ExecuteGoesThrough(statements[..n], s, v);
      if Execute(statements, s, v).Some? {
        assert forall i :: 0 <= i < n ==> statements[..n][i] == statements[i];
        moments := moments + [Execute(statements, s, v).value];
      }
    }
  }

  lemma {:induction false} ThroughIsExecute<S(!new), V(!new)>(statements: seq<(S, V) -> Option<(S, V)>>,
                                                              moments: seq<(S, V)>)
    requires GoesThrough(statements, moments)
    ensures Execute(statements, moments[0].0, moments[0].1) == Some(moments[|statements|])
    decreases |statements|
  {
    if statements != [] {
      var n := |statements| - 1;
      assert forall i :: 0 <= i < n ==> statements[..n][i] == statements[i];
      ThroughIsExecute(statements[..n], moments[..n + 1]);
    }
  }

  /** On an open connection a callable is all or nothing: either its statements go through, each
      from where the one before left things, and what the last one leaves is committed and handed
      back; or they do not, the callable raises, and the database is as it was. */
  lemma AllOrNothing<S(!new), V(!new)>(job: Job<S, V>, c: Conn<S>)
    requires c.open && !job.mode.Closing?
    ensures var (c', answer) := Whole(job, c);
            && c'.open && (answer == Raised ==> c'.db == c.db)
            && (answer.Returned? ==>
                  exists moments: seq<(S, V)> :: GoesThrough(job.statements, moments) && moments[0] == (c.db, job.hand)
                                    && moments[|job.statements|] == (c'.db, answer.value))
    ensures forall moments: seq<(S, V)> :: GoesThrough(job.statements, moments) && moments[0] == (c.db, job.hand) ==>
              Whole(job, c) == (Conn(moments[|job.statements|].0, true), Returned(moments[|job.statements|].1))
  {
    var through := ExecuteGoesThrough(job.statements, c.db, job.hand);
    forall moments: seq<(S, V)> | GoesThrough(job.statements, moments) && moments[0] == (c.db, job.hand)
      ensures Whole(job, c) == (Conn(moments[|job.statements|].0, true), Returned(moments[|job.statements|].1))
    {
      ThroughIsExecute(job.statements, moments);
    }
  }

  /** On a closed one nothing is written any more, and closing writes nothing. */
  lemma ClosedWritesNothing<S(!new), V(!new)>(job: Job<S, V>, c: Conn<S>)
    requires !c.open || job.mode.Closing?
    ensures Whole(job, c).0 == Conn(c.db, false)
    ensures job.mode.Transaction? ==> Whole(job, c).1 == Raised
  {
  }
}
