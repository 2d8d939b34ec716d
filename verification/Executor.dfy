/** One worker, one connection, one queue: why a transaction that is many statements behaves
    as one step, whatever is submitted, cancelled or raised meanwhile. */
module Executor {
  import opened Wrappers

  datatype Mode = Transaction | Reading | Closing

  /** A submitted callable.  Each statement sees the database as the connection shows it and
      what the callable has in hand; it leaves both changed, or raises. */
  datatype Job<!S, !V> = Job(id: nat, mode: Mode, statements: seq<(S, V) -> Option<(S, V)>>, hand: V)

  datatype Answer<V> = Returned(value: V) | Raised

  /** The database as committed, and whether the connection to it is open. */
  datatype Conn<S> = Conn(db: S, open: bool)

  function Execute<S, V>(statements: seq<(S, V) -> Option<(S, V)>>, s: S, v: V): Option<(S, V)> {
    if statements == [] then Some((s, v))
    else
      var n := |statements| - 1;
      var before := Execute(statements[..n], s, v);
      if before.None? then None else statements[n](before.value.0, before.value.1)
  }

  /** What the callable amounts to when nothing else happens while it runs. */
  function Whole<S, V>(job: Job<S, V>, c: Conn<S>): (Conn<S>, Answer<V>) {
    if job.mode.Closing? then (Conn(c.db, false), Returned(job.hand))
    else if !c.open then (c, if job.mode.Transaction? || job.statements != [] then Raised else Returned(job.hand))
    else
      var r := Execute(job.statements, c.db, job.hand);
      if r.None? then (c, Raised) else (Conn(r.value.0, true), Returned(r.value.1))
  }

  /** The same callables one after another. */
  function Fold<S, V>(c: Conn<S>, jobs: seq<Job<S, V>>): Conn<S> {
    if jobs == [] then c else Whole(jobs[|jobs| - 1], Fold(c, jobs[..|jobs| - 1])).0
  }

  ghost predicate ReadOnly<S(!new), V(!new)>(job: Job<S, V>) {
    forall i, s, v :: 0 <= i < |job.statements| ==> var r := job.statements[i](s, v); r.Some? ==> r.value.0 == s
  }

  // ---- the worker's own code ----------------------------------------------------------------

  class Database<S(!new), V(!new)> {
    var current: S
    /** What BEGIN remembered, while a transaction is open. */
    var saved: Option<S>
    var open: bool
    var closed: bool
    var queue: seq<Job<S, V>>

    constructor (db: S)
      ensures current == db && saved == None && open && !closed && queue == []
    {
      current, saved, open, closed, queue := db, None, true, false, [];
    }

    method Submit(job: Job<S, V>)
      modifies this`queue
      ensures queue == old(queue) + [job]
    {
      queue := queue + [job];
    }

    /** Only the first close submits one; the rest do nothing. */
    method Close(id: nat, hand: V)
      modifies this`queue, this`closed
      ensures closed
      ensures queue == old(queue) + if old(closed) then [] else [Job(id, Closing, [], hand)]
    {
      if closed {
        return;
      }
      closed := true;
      Submit(Job(id, Closing, [], hand));
    }

    /** BEGIN, the callable, COMMIT; or ROLLBACK if it raised. */
    method InTransaction(job: Job<S, V>) returns (answer: Answer<V>)
      requires saved == None && job.mode.Transaction?
      modifies this`current, this`saved
      ensures saved == None && (Conn(current, open), answer) == Whole(job, Conn(old(current), open))
    {
      if !open {
        return Raised;
      }
      saved := Some(current);
      var hand := job.hand;
      var i := 0;
      while i < |job.statements|
        invariant 0 <= i <= |job.statements| && saved == Some(old(current))
        invariant Execute(job.statements[..i], old(current), job.hand) == Some((current, hand))
      {
        assert job.statements[..i + 1][..i] == job.statements[..i];
        var r := job.statements[i](current, hand);
        if r.None? {
          current, saved := saved.value, None;
          RaisedEarly(job.statements, current, job.hand, i + 1);
          return Raised;
        }
        current, hand := r.value.0, r.value.1;
        i := i + 1;
      }
      assert job.statements[..i] == job.statements;
      saved := None;
      answer := Returned(hand);
    }

    /** A callable outside any transaction. */
    method Plainly(job: Job<S, V>) returns (answer: Answer<V>)
      requires saved == None && job.mode.Reading? && ReadOnly(job)
      modifies this`current
      ensures (Conn(current, open), answer) == Whole(job, Conn(old(current), open)) && current == old(current)
    {
      var hand := job.hand;
      var i := 0;
      while i < |job.statements|
        invariant 0 <= i <= |job.statements| && current == old(current)
        invariant open ==> Execute(job.statements[..i], old(current), job.hand) == Some((current, hand))
        invariant !open ==> i == 0 && hand == job.hand
      {
        assert job.statements[..i + 1][..i] == job.statements[..i];
        if !open {
          return Raised;
        }
        var r := job.statements[i](current, hand);
        if r.None? {
          RaisedEarly(job.statements, old(current), job.hand, i + 1);
          return Raised;
        }
        current, hand := r.value.0, r.value.1;
        i := i + 1;
      }
      assert job.statements[..i] == job.statements;
      answer := Returned(hand);
    }

    /** The worker thread: the callable at the head of the queue, from end to end. */
    method ServeNext() returns (answer: Answer<V>)
      requires saved == None && queue != [] && (queue[0].mode.Reading? ==> ReadOnly(queue[0]))
      modifies this`current, this`saved, this`open, this`queue
      ensures saved == None && queue == old(queue)[1..]
      ensures (Conn(current, open), answer) == Whole(old(queue)[0], Conn(old(current), old(open)))
    {
      var job := queue[0];
      queue := queue[1..];
      match job.mode
      case Closing =>
        open := false;
        answer := Returned(job.hand);
      case Transaction =>
        answer := InTransaction(job);
      case Reading =>
        answer := Plainly(job);
    }
  }

  /** Once a statement has raised, the rest are not reached. */
  lemma {:induction false} RaisedEarly<S, V>(statements: seq<(S, V) -> Option<(S, V)>>, s: S, v: V, n: nat)
    requires n <= |statements| && Execute(statements[..n], s, v).None?
    ensures Execute(statements, s, v).None?
    decreases |statements|
  {
    if n < |statements| {
      var m := |statements| - 1;
      assert statements[..m][..n] == statements[..n];
      RaisedEarly(statements[..m], s, v, n);
    } else {
      assert statements[..n] == statements;
    }
  }

  // ---- schedules ------------------------------------------------------------------------------

  datatype Worker<!S, !V> = Idle | Active(job: Job<S, V>, at: nat, hand: V)

  /** Everything there is at one moment, and what has happened: the callables submitted, those
      cancelled before they started, those that ran and what they answered. */
  datatype State<!S, !V> = State(
    current: S, saved: Option<S>, open: bool, closed: bool, shut: bool,
    worker: Worker<S, V>, queue: seq<Job<S, V>>,
    submitted: seq<Job<S, V>>, dropped: set<nat>, ran: seq<Job<S, V>>, answers: seq<Answer<V>>)

  datatype Occurrence<!S, !V> =
    | Submit(job: Job<S, V>)
    | Start
    | Statement
    | Finish
    | Cancel(id: nat)
    | Close(id: nat, hand: V)
    | Shutdown

  function Fresh<S, V>(db: S): State<S, V> {
    State(db, None, true, false, false, Idle, [], [], {}, [], [])
  }

  predicate HasId<S, V>(jobs: seq<Job<S, V>>, id: nat) {
    exists i :: 0 <= i < |jobs| && jobs[i].id == id
  }

  ghost predicate Enabled<S(!new), V(!new)>(st: State<S, V>, e: Occurrence<S, V>) {
    match e
    case Submit(job) =>
        !st.shut && !job.mode.Closing? && !HasId(st.submitted, job.id) && (job.mode.Reading? ==> ReadOnly(job))
    case Start => st.worker.Idle? && st.queue != []
    case Statement => st.worker.Active? && st.worker.at < |st.worker.job.statements|
    case Finish => st.worker.Active? && st.worker.at == |st.worker.job.statements|
    case Cancel(_) => true
    case Close(id, _) => !st.shut && !HasId(st.submitted, id)
    case Shutdown => st.closed && !st.open
  }

  /** The jobs whose ids are not in a set, in the order they were. */
  function Keep<S, V>(jobs: seq<Job<S, V>>, dropped: set<nat>): seq<Job<S, V>> {
    if jobs == [] then []
    else Keep(jobs[..|jobs| - 1], dropped) + if jobs[|jobs| - 1].id in dropped then [] else [jobs[|jobs| - 1]]
  }

  function Enqueued<S, V>(st: State<S, V>, job: Job<S, V>): State<S, V> {
    st.(queue := st.queue + [job], submitted := st.submitted + [job])
  }

  /** The worker is done with a callable, whichever way. */
  function Ended<S, V>(st: State<S, V>, job: Job<S, V>, answer: Answer<V>): State<S, V> {
    st.(worker := Idle, saved := None, ran := st.ran + [job], answers := st.answers + [answer])
  }

  function Started<S, V>(st: State<S, V>): State<S, V>
    requires st.queue != []
  {
    var job := st.queue[0];
    var taken := st.(queue := st.queue[1..]);
    match job.mode
    case Closing => Ended(taken.(open := false), job, Returned(job.hand))
    case Transaction =>
      if !st.open then Ended(taken, job, Raised)
      else taken.(saved := Some(st.current), worker := Active(job, 0, job.hand))
    case Reading => taken.(worker := Active(job, 0, job.hand))
  }

  function Stated<S, V>(st: State<S, V>): State<S, V>
    requires st.worker.Active? && st.worker.at < |st.worker.job.statements|
  {
    var Active(job, at, hand) := st.worker;
    var r := if st.open then job.statements[at](st.current, hand) else None;
    if r.Some? then st.(current := r.value.0, worker := Active(job, at + 1, r.value.1))
    else Ended(if st.saved.Some? then st.(current := st.saved.value) else st, job, Raised)
  }

  /** A waiter that gives up takes its callable off the queue if it has not been started;
      one that has been started is left to finish. */
  function Cancelled<S, V>(st: State<S, V>, id: nat): State<S, V> {
    if HasId(st.queue, id) then st.(queue := Keep(st.queue, {id}), dropped := st.dropped + {id}) else st
  }

  ghost function Step<S(!new), V(!new)>(st: State<S, V>, e: Occurrence<S, V>): State<S, V>
    requires Enabled(st, e)
  {
    match e
    case Submit(job) => Enqueued(st, job)
    case Start => Started(st)
    case Statement => Stated(st)
    case Finish => Ended(st, st.worker.job, Returned(st.worker.hand))
    case Cancel(id) => Cancelled(st, id)
    case Close(id, hand) => if st.closed then st else Enqueued(st.(closed := true), Job(id, Closing, [], hand))
    case Shutdown => st.(shut := true)
  }

  ghost predicate Schedule<S(!new), V(!new)>(st: State<S, V>, events: seq<Occurrence<S, V>>)
    decreases |events|
  {
    events == [] || (Enabled(st, events[0]) && Schedule(Step(st, events[0]), events[1..]))
  }

  ghost function Play<S(!new), V(!new)>(st: State<S, V>, events: seq<Occurrence<S, V>>): State<S, V>
    requires Schedule(st, events)
    decreases |events|
  {
    if events == [] then st else Play(Step(st, events[0]), events[1..])
  }

  // ---- what every schedule keeps ----------------------------------------------------------------

  function Now<S, V>(w: Worker<S, V>): seq<Job<S, V>> {
    if w.Active? then [w.job] else []
  }

  ghost predicate Distinct<S(!new), V(!new)>(jobs: seq<Job<S, V>>) {
    forall i, j :: 0 <= i < |jobs| && 0 <= j < |jobs| && jobs[i].id == jobs[j].id ==> i == j
  }

  /** The callables that ran, the one running and those waiting are the submitted ones less the
      dropped, in the order they were submitted. */
  ghost predicate InOrder<S(!new), V(!new)>(st: State<S, V>) {
    && Distinct(st.submitted) && (forall id :: id in st.dropped ==> HasId(st.submitted, id))
    && Keep(st.submitted, st.dropped) == st.ran + (Now(st.worker) + st.queue)
  }

  /** Every answer is the one the callable gives on what the callables before it left. */
  ghost predicate AnswersAreSequential<S(!new), V(!new)>(c: Conn<S>, ran: seq<Job<S, V>>, answers: seq<Answer<V>>) {
    |answers| == |ran| && forall i :: 0 <= i < |ran| ==> answers[i] == Whole(ran[i], Fold(c, ran[..i])).1
  }

  /** Where the connection stands: on what the finished callables left, or so many statements
      into the running one from there. */
  ghost predicate OnCourse<S(!new), V(!new)>(c: Conn<S>, st: State<S, V>) {
    var base := Fold(c, st.ran);
    && st.open == base.open
    && (st.worker.Idle? ==> st.saved == None && st.current == base.db)
    && (st.worker.Active? ==>
          && st.worker.at <= |st.worker.job.statements| && !st.worker.job.mode.Closing?
          && (st.worker.job.mode.Transaction? ==> st.open && st.saved == Some(base.db))
          && (st.worker.job.mode.Reading? ==> st.saved == None && st.current == base.db && ReadOnly(st.worker.job))
          && (!st.open ==> st.worker.at == 0 && st.worker.hand == st.worker.job.hand)
          && (st.open ==> Execute(st.worker.job.statements[..st.worker.at], base.db, st.worker.job.hand)
                          == Some((st.current, st.worker.hand))))
  }

  ghost predicate ReadsAreReadOnly<S(!new), V(!new)>(jobs: seq<Job<S, V>>) {
    forall i :: 0 <= i < |jobs| && jobs[i].mode.Reading? ==> ReadOnly(jobs[i])
  }

  ghost predicate Sequential<S(!new), V(!new)>(c: Conn<S>, st: State<S, V>) {
    InOrder(st) && AnswersAreSequential(c, st.ran, st.answers) && OnCourse(c, st) && ReadsAreReadOnly(st.queue)
  }

  /** What is committed: what a rollback would give back, or what is there. */
  function OnDisk<S, V>(st: State<S, V>): S {
    if st.saved.Some? then st.saved.value else st.current
  }

  // ---- order -------------------------------------------------------------------------------------

  lemma {:induction false} KeepOfConcat<S, V>(a: seq<Job<S, V>>, b: seq<Job<S, V>>, dropped: set<nat>)
    ensures Keep(a + b, dropped) == Keep(a, dropped) + Keep(b, dropped)
    decreases |b|
  {
    if b == [] {
      assert a + b == a;
    } else {
      var n := |b| - 1;
      assert (a + b)[..|a + b| - 1] == a + b[..n];
      KeepOfConcat(a, b[..n], dropped);
    }
  }

  lemma {:induction false} KeepTwice<S, V>(jobs: seq<Job<S, V>>, a: set<nat>, b: set<nat>)
    ensures Keep(Keep(jobs, a), b) == Keep(jobs, a + b)
  {
    if jobs != [] {
      var n := |jobs| - 1;
      var last := if jobs[n].id in a then [] else [jobs[n]];
      KeepTwice(jobs[..n], a, b);
      KeepOfConcat(Keep(jobs[..n], a), last, b);
      if jobs[n].id !in a {
        assert last[..0] == [] && Keep(last[..0], b) == [];
      }
    }
  }

  lemma {:induction false} KeepAllOf<S, V>(jobs: seq<Job<S, V>>, id: nat, n: nat)
    requires n <= |jobs| && forall i :: 0 <= i < n ==> jobs[i].id != id
    ensures Keep(jobs[..n], {id}) == jobs[..n]
  {
    if n > 0 {
      KeepAllOf(jobs, id, n - 1);
      assert jobs[..n][..n - 1] == jobs[..n - 1];
      assert jobs[..n - 1] + [jobs[n - 1]] == jobs[..n];
    }
  }

  lemma KeepAll<S, V>(jobs: seq<Job<S, V>>, id: nat)
    requires forall job :: job in jobs ==> job.id != id
    ensures Keep(jobs, {id}) == jobs
  {
    assert forall i :: 0 <= i < |jobs| ==> jobs[i] in jobs;
    KeepAllOf(jobs, id, |jobs|);
    assert jobs[..|jobs|] == jobs;
  }

  /** What is kept is there, and ids stay distinct. */
  lemma {:induction false} KeepFacts<S(!new), V(!new)>(jobs: seq<Job<S, V>>, dropped: set<nat>)
    requires Distinct(jobs)
    ensures Distinct(Keep(jobs, dropped))
    ensures forall i ::
              0 <= i < |Keep(jobs, dropped)| ==> Keep(jobs, dropped)[i] in jobs && Keep(jobs, dropped)[i].id !in dropped
  {
    if jobs != [] {
      var n := |jobs| - 1;
      var rest := jobs[..n];
      assert forall i :: 0 <= i < n ==> rest[i] == jobs[i];
      KeepFacts(rest, dropped);
      assert forall x :: x in rest ==> x in jobs && x.id != jobs[n].id;
    }
  }

  lemma EnqueueKeepsOrder<S(!new), V(!new)>(st: State<S, V>, job: Job<S, V>)
    requires InOrder(st) && !HasId(st.submitted, job.id)
    ensures InOrder(Enqueued(st, job))
  {
    var more := st.submitted + [job];
    assert more[..|more| - 1] == st.submitted;
    assert st.ran + (Now(st.worker) + (st.queue + [job])) == st.ran + (Now(st.worker) + st.queue) + [job];
    forall id | id in st.dropped ensures HasId(more, id) {
      var i :| 0 <= i < |st.submitted| && st.submitted[i].id == id;
      assert more[i].id == id;
    }
  }

  lemma NotAhead<S(!new), V(!new)>(ahead: seq<Job<S, V>>, queue: seq<Job<S, V>>, id: nat)
    requires Distinct(ahead + queue) && HasId(queue, id)
    ensures forall job :: job in ahead ==> job.id != id
  {
    var i :| 0 <= i < |queue| && queue[i].id == id;
    assert (ahead + queue)[|ahead| + i].id == id;
    assert forall j :: 0 <= j < |ahead| ==> (ahead + queue)[j] == ahead[j];
  }

  lemma DropKeepsOrder<S(!new), V(!new)>(submitted: seq<Job<S, V>>, dropped: set<nat>, ahead: seq<Job<S, V>>,
                                         queue: seq<Job<S, V>>, id: nat)
    requires Distinct(submitted) && Keep(submitted, dropped) == ahead + queue && HasId(queue, id)
    ensures Keep(submitted, dropped + {id}) == ahead + Keep(queue, {id})
    ensures HasId(submitted, id)
  {
    KeepFacts(submitted, dropped);
    NotAhead(ahead, queue, id);
    KeepAll(ahead, id);
    KeepOfConcat(ahead, queue, {id});
    KeepTwice(submitted, dropped, {id});
    var i :| 0 <= i < |queue| && queue[i].id == id;
    assert Keep(submitted, dropped)[|ahead| + i] == queue[i];
  }

  lemma CancelKeepsOrder<S(!new), V(!new)>(st: State<S, V>, id: nat)
    requires InOrder(st)
    ensures InOrder(Cancelled(st, id))
  {
    if HasId(st.queue, id) {
      var ahead := st.ran + Now(st.worker);
      assert ahead + st.queue == st.ran + (Now(st.worker) + st.queue);
      DropKeepsOrder(st.submitted, st.dropped, ahead, st.queue, id);
      assert ahead + Keep(st.queue, {id}) == st.ran + (Now(st.worker) + Keep(st.queue, {id}));
    }
  }

  /** Whatever the worker does, the three lists stay one list. */
  lemma WorkKeepsOrder<S(!new), V(!new)>(st: State<S, V>, e: Occurrence<S, V>)
    requires Enabled(st, e) && (e.Start? || e.Statement? || e.Finish?)
    ensures var st' := Step(st, e);
            st'.ran + (Now(st'.worker) + st'.queue) == st.ran + (Now(st.worker) + st.queue)
            && st'.submitted == st.submitted && st'.dropped == st.dropped
  {
    match e
    case Start => StartKeepsOrder(st);
    case Statement => EndKeepsOrder(st, st.worker.job);
    case Finish => EndKeepsOrder(st, st.worker.job);
  }

  lemma StartKeepsOrder<S(!new), V(!new)>(st: State<S, V>)
    requires st.worker.Idle? && st.queue != []
    ensures Started(st).ran + (Now(Started(st).worker) + Started(st).queue) == st.ran + (Now(st.worker) + st.queue)
  {
    var job, rest := st.queue[0], st.queue[1..];
    assert st.queue == [job] + rest && [] + st.queue == st.queue;
    assert (st.ran + [job]) + ([] + rest) == st.ran + ([job] + rest);
  }

  lemma EndKeepsOrder<S(!new), V(!new)>(st: State<S, V>, job: Job<S, V>)
    ensures (st.ran + [job]) + ([] + st.queue) == st.ran + ([job] + st.queue)
  {
  }

  // ---- the connection ------------------------------------------------------------------------------

  lemma FoldOneMore<S, V>(c: Conn<S>, jobs: seq<Job<S, V>>, job: Job<S, V>)
    ensures Fold(c, jobs + [job]) == Whole(job, Fold(c, jobs)).0
  {
    assert (jobs + [job])[..|jobs|] == jobs;
  }

  lemma AnswerOneMore<S(!new), V(!new)>(c: Conn<S>, ran: seq<Job<S, V>>, answers: seq<Answer<V>>, job: Job<S, V>)
    requires AnswersAreSequential(c, ran, answers)
    ensures AnswersAreSequential(c, ran + [job], answers + [Whole(job, Fold(c, ran)).1])
  {
    forall i | 0 <= i < |ran| + 1
      ensures (answers + [Whole(job, Fold(c, ran)).1])[i] == Whole((ran + [job])[i], Fold(c, (ran + [job])[..i])).1
    {
      if i < |ran| {
        assert (ran + [job])[..i] == ran[..i];
      } else {
        assert (ran + [job])[..i] == ran;
      }
    }
  }

  /** A callable that ends as its whole would leaves the connection on course. */
  lemma EndKeepsCourse<S(!new), V(!new)>(c: Conn<S>, st: State<S, V>, st': State<S, V>, job: Job<S, V>,
                                         answer: Answer<V>)
    requires AnswersAreSequential(c, st.ran, st.answers)
    requires st'.worker.Idle? && st'.saved == None && st'.ran == st.ran + [job] && st'.answers == st.answers + [answer]
    requires (Conn(st'.current, st'.open), answer) == Whole(job, Fold(c, st.ran))
    ensures AnswersAreSequential(c, st'.ran, st'.answers) && OnCourse(c, st')
  {
    FoldOneMore(c, st.ran, job);
    AnswerOneMore(c, st.ran, st.answers, job);
  }

  lemma StartKeepsCourse<S(!new), V(!new)>(c: Conn<S>, st: State<S, V>)
    requires Sequential(c, st) && Enabled(st, Start)
    ensures AnswersAreSequential(c, Started(st).ran, Started(st).answers) && OnCourse(c, Started(st))
  {
    var job := st.queue[0];
    match job.mode
    case Closing => EndKeepsCourse(c, st, Started(st), job, Returned(job.hand));
    case Transaction =>
      if !st.open { EndKeepsCourse(c, st, Started(st), job, Raised); }
    case Reading => assert ReadOnly(job);
  }

  lemma ExecuteOneMore<S, V>(statements: seq<(S, V) -> Option<(S, V)>>, n: nat, s: S, v: V)
    requires n < |statements|
    ensures var before := Execute(statements[..n], s, v);
            Execute(statements[..n + 1], s, v)
            == if before.None? then None else statements[n](before.value.0, before.value.1)
  {
    assert statements[..n + 1][..n] == statements[..n];
  }

  lemma StatementKeepsCourse<S(!new), V(!new)>(c: Conn<S>, st: State<S, V>)
    requires Sequential(c, st) && Enabled(st, Statement)
    ensures AnswersAreSequential(c, Stated(st).ran, Stated(st).answers) && OnCourse(c, Stated(st))
  {
    var Active(job, at, hand) := st.worker;
    var base := Fold(c, st.ran);
    ExecuteOneMore(job.statements, at, base.db, job.hand);
    var r := if st.open then job.statements[at](st.current, hand) else None;
    if r.None? {
      if st.open { RaisedEarly(job.statements, base.db, job.hand, at + 1); }
      EndKeepsCourse(c, st, Stated(st), job, Raised);
    }
  }

  lemma FinishKeepsCourse<S(!new), V(!new)>(c: Conn<S>, st: State<S, V>)
    requires Sequential(c, st) && Enabled(st, Finish)
    ensures AnswersAreSequential(c, Step(st, Finish).ran, Step(st, Finish).answers) && OnCourse(c, Step(st, Finish))
  {
    var job := st.worker.job;
    assert job.statements[..st.worker.at] == job.statements;
    EndKeepsCourse(c, st, Step(st, Finish), job, Returned(st.worker.hand));
  }

  lemma QueueKeepsReadOnly<S(!new), V(!new)>(st: State<S, V>, e: Occurrence<S, V>)
    requires Enabled(st, e) && ReadsAreReadOnly(st.queue)
    ensures ReadsAreReadOnly(Step(st, e).queue)
  {
    if e.Cancel? {
      KeepIsThere(st.queue, {e.id});
      var left := Step(st, e).queue;
      forall i | 0 <= i < |left| && left[i].mode.Reading? ensures ReadOnly(left[i]) {
        assert left[i] in st.queue;
      }
    }
  }

  lemma {:induction false} KeepIsThere<S, V>(jobs: seq<Job<S, V>>, dropped: set<nat>)
    ensures forall job :: job in Keep(jobs, dropped) ==> job in jobs
  {
    if jobs != [] {
      KeepIsThere(jobs[..|jobs| - 1], dropped);
    }
  }

  /** Every event of a schedule keeps all of it. */
  lemma StepIsSequential<S(!new), V(!new)>(c: Conn<S>, st: State<S, V>, e: Occurrence<S, V>)
    requires Sequential(c, st) && Enabled(st, e)
    ensures Sequential(c, Step(st, e))
  {
    QueueKeepsReadOnly(st, e);
    match e
    case Submit(job) => EnqueueKeepsOrder(st, job);
    case Start => WorkKeepsOrder(st, e); StartKeepsCourse(c, st);
    case Statement => WorkKeepsOrder(st, e); StatementKeepsCourse(c, st);
    case Finish => WorkKeepsOrder(st, e); FinishKeepsCourse(c, st);
    case Cancel(id) => CancelKeepsOrder(st, id);
    case Close(id, hand) => if !st.closed { EnqueueKeepsOrder(st.(closed := true), Job(id, Closing, [], hand)); }
    case Shutdown =>
  }

  lemma {:induction false} ScheduleIsSequential<S(!new), V(!new)>(c: Conn<S>, st: State<S, V>,
                                                                  events: seq<Occurrence<S, V>>)
    requires Sequential(c, st) && Schedule(st, events)
    ensures Sequential(c, Play(st, events))
    decreases |events|
  {
    if events != [] {
      StepIsSequential(c, st, events[0]);
      ScheduleIsSequential(c, Step(st, events[0]), events[1..]);
    }
  }

  // ---- what follows ---------------------------------------------------------------------------------

  /** For any schedule of submits, statements, exceptions, cancellations and closes: the
      callables that ran are the ones submitted and not dropped, in queue order and so far;
      what is committed is what running them whole, one after another, leaves, with those that
      raised leaving nothing; and each of them, the reads included, was answered what it would
      have been answered then. */
  lemma AnyScheduleIsSequential<S(!new), V(!new)>(db: S, events: seq<Occurrence<S, V>>)
    requires Schedule(Fresh(db), events)
    ensures var st := Play(Fresh(db), events);
            && st.ran + (Now(st.worker) + st.queue) == Keep(st.submitted, st.dropped)
            && OnDisk(st) == Fold(Conn(db, true), st.ran).db
            && AnswersAreSequential(Conn(db, true), st.ran, st.answers)
  {
    FreshIsSequential<S, V>(db);
    ScheduleIsSequential(Conn(db, true), Fresh(db), events);
  }

  lemma FreshIsSequential<S(!new), V(!new)>(db: S)
    ensures Sequential(Conn(db, true), Fresh<S, V>(db))
  {
  }

  /** Cancelling a callable that has been started, has finished or was never submitted is nothing. */
  lemma LateCancelIsNothing<S(!new), V(!new)>(st: State<S, V>, id: nat)
    requires !HasId(st.queue, id)
    ensures Step(st, Cancel(id)) == st
  {
  }

  lemma DroppedNeverRan<S(!new), V(!new)>(c: Conn<S>, st: State<S, V>, i: nat)
    requires Sequential(c, st) && i < |st.ran|
    ensures st.ran[i].id !in st.dropped
  {
    KeepFacts(st.submitted, st.dropped);
    assert st.ran[i] == (st.ran + (Now(st.worker) + st.queue))[i];
  }

  lemma DroppedHasNotRun<S(!new), V(!new)>(c: Conn<S>, st: State<S, V>, id: nat)
    requires Sequential(c, st) && id in st.dropped
    ensures !HasId(st.ran, id)
  {
    forall i | 0 <= i < |st.ran| ensures st.ran[i].id != id {
      DroppedNeverRan(c, st, i);
    }
  }

  lemma DroppedStays<S(!new), V(!new)>(st: State<S, V>, e: Occurrence<S, V>, id: nat)
    requires Enabled(st, e) && id in st.dropped
    ensures id in Step(st, e).dropped
  {
  }

  /** What is dropped stays dropped, so it never runs later either. */
  lemma {:induction false} DroppedNeverRuns<S(!new), V(!new)>(c: Conn<S>, st: State<S, V>,
                                                              events: seq<Occurrence<S, V>>, id: nat)
    requires Sequential(c, st) && Schedule(st, events) && id in st.dropped
    ensures !HasId(Play(st, events).ran, id)
    decreases |events|
  {
    if events == [] {
      DroppedHasNotRun(c, st, id);
    } else {
      StepIsSequential(c, st, events[0]);
      DroppedStays(st, events[0], id);
      DroppedNeverRuns(c, Step(st, events[0]), events[1..], id);
    }
  }

  /** Once the connection is closed, nothing committed changes: not by one event, and so not by any
      number of them. */
  lemma {:induction false} ClosedIsFinal<S(!new), V(!new)>(c: Conn<S>, st: State<S, V>, events: seq<Occurrence<S, V>>)
    requires Sequential(c, st) && Schedule(st, events) && !st.open
    ensures !Play(st, events).open && OnDisk(Play(st, events)) == OnDisk(st)
    decreases |events|
  {
    if events != [] {
      ClosedStep(c, st, events[0]);
      StepIsSequential(c, st, events[0]);
      ClosedIsFinal(c, Step(st, events[0]), events[1..]);
    }
  }

  lemma ClosedStep<S(!new), V(!new)>(c: Conn<S>, st: State<S, V>, e: Occurrence<S, V>)
    requires Sequential(c, st) && Enabled(st, e) && !st.open
    ensures !Step(st, e).open && OnDisk(Step(st, e)) == OnDisk(st)
  {
  }

  // ---- cancellation -------------------------------------------------------------------------------------

  /** Two moments at which the same has been done, is being done and is waiting; only what was
      submitted and dropped on the way may differ, and nothing is known to `b` that is not to `a`. */
  ghost predicate SameWork<S(!new), V(!new)>(a: State<S, V>, b: State<S, V>) {
    SameBut(a, b) && a.queue == b.queue
  }

  ghost predicate SameBut<S(!new), V(!new)>(a: State<S, V>, b: State<S, V>) {
    && a.current == b.current && a.saved == b.saved && a.open == b.open && a.closed == b.closed && a.shut == b.shut
    && a.worker == b.worker && a.ran == b.ran && a.answers == b.answers
    && forall id :: HasId(b.submitted, id) ==> HasId(a.submitted, id)
  }

  /** The same moment with one waiting callable and without it. */
  ghost predicate WithAndWithout<S(!new), V(!new)>(a: State<S, V>, b: State<S, V>, id: nat) {
    SameBut(a, b) && HasId(a.queue, id) && HasId(a.submitted, id) && b.queue == Keep(a.queue, {id})
  }

  lemma HasIdOfConcat<S, V>(a: seq<Job<S, V>>, b: seq<Job<S, V>>, id: nat)
    ensures HasId(a + b, id) <==> HasId(a, id) || HasId(b, id)
  {
    if i :| 0 <= i < |a| && a[i].id == id { assert (a + b)[i].id == id; }
    if i :| 0 <= i < |b| && b[i].id == id { assert (a + b)[|a| + i].id == id; }
    if i :| 0 <= i < |a + b| && (a + b)[i].id == id {
      assert if i < |a| then a[i].id == id else b[i - |a|].id == id;
    }
  }

  lemma HasIdAtEnd<S, V>(rest: seq<Job<S, V>>, last: Job<S, V>, id: nat)
    ensures HasId(rest + [last], id) <==> HasId(rest, id) || last.id == id
  {
    HasIdOfConcat(rest, [last], id);
    assert [last][0] == last;
  }

  lemma {:induction false} HasIdOfKeep<S, V>(jobs: seq<Job<S, V>>, dropped: set<nat>, id: nat)
    ensures HasId(Keep(jobs, dropped), id) <==> HasId(jobs, id) && id !in dropped
  {
    if jobs != [] {
      var rest, last := jobs[..|jobs| - 1], jobs[|jobs| - 1];
      HasIdOfKeep(rest, dropped, id);
      assert jobs == rest + [last];
      HasIdAtEnd(rest, last, id);
      HasIdAtEnd(Keep(rest, dropped), last, id);
      if last.id in dropped {
        assert Keep(jobs, dropped) == Keep(rest, dropped) + [] == Keep(rest, dropped);
      } else {
        assert Keep(jobs, dropped) == Keep(rest, dropped) + [last];
      }
    }
  }

  lemma SubmittedTogether<S(!new), V(!new)>(a: State<S, V>, b: State<S, V>, job: Job<S, V>)
    requires SameBut(a, b)
    ensures SameBut(Enqueued(a, job), Enqueued(b, job))
    ensures forall id :: HasId(a.submitted, id) ==> HasId(Enqueued(a, job).submitted, id)
  {
    forall id
      ensures HasId(b.submitted + [job], id) ==> HasId(a.submitted + [job], id)
      ensures HasId(a.submitted, id) ==> HasId(a.submitted + [job], id)
    {
      HasIdOfConcat(a.submitted, [job], id);
      HasIdOfConcat(b.submitted, [job], id);
    }
  }

  lemma TakenTogether<S(!new), V(!new)>(x: State<S, V>, y: State<S, V>, job: Job<S, V>, a: State<S, V>, b: State<S, V>)
    requires a.queue != [] && b.queue != [] && a.queue[0] == b.queue[0] == job && SameBut(a, b)
    requires x == a.(queue := a.queue[1..]) && y == b.(queue := b.queue[1..])
    ensures SameBut(Started(a), Started(b)) && Started(a).queue == x.queue && Started(b).queue == y.queue
    ensures Started(a).submitted == a.submitted
  {
  }

  lemma SameStart<S(!new), V(!new)>(a: State<S, V>, b: State<S, V>)
    requires SameWork(a, b) && a.queue != []
    ensures SameWork(Started(a), Started(b))
  {
    TakenTogether(a.(queue := a.queue[1..]), b.(queue := b.queue[1..]), a.queue[0], a, b);
  }

  lemma SameStatement<S(!new), V(!new)>(a: State<S, V>, b: State<S, V>)
    requires SameBut(a, b) && a.worker.Active? && a.worker.at < |a.worker.job.statements|
    ensures SameBut(Stated(a), Stated(b)) && Stated(a).queue == a.queue && Stated(b).queue == b.queue
    ensures Stated(a).submitted == a.submitted
  {
  }

  /** Whatever happens, the same happens to both. */
  lemma SameStep<S(!new), V(!new)>(a: State<S, V>, b: State<S, V>, e: Occurrence<S, V>)
    requires SameWork(a, b) && Enabled(a, e)
    ensures Enabled(b, e) && SameWork(Step(a, e), Step(b, e))
  {
    match e
    case Submit(job) => SubmittedTogether(a, b, job);
    case Start => SameStart(a, b);
    case Statement => SameStatement(a, b);
    case Close(id, hand) =>
      if !a.closed { SubmittedTogether(a.(closed := true), b.(closed := true), Job(id, Closing, [], hand)); }
    case _ =>
  }

  lemma {:induction false} SamePlay<S(!new), V(!new)>(a: State<S, V>, b: State<S, V>, events: seq<Occurrence<S, V>>)
    requires SameWork(a, b) && Schedule(a, events)
    ensures Schedule(b, events) && SameWork(Play(a, events), Play(b, events))
    decreases |events|
  {
    if events != [] {
      SameStep(a, b, events[0]);
      SamePlay(Step(a, events[0]), Step(b, events[0]), events[1..]);
    }
  }

  lemma EnqueueBeside<S(!new), V(!new)>(a: State<S, V>, b: State<S, V>, id: nat, job: Job<S, V>)
    requires WithAndWithout(a, b, id) && !HasId(a.submitted, job.id)
    ensures WithAndWithout(Enqueued(a, job), Enqueued(b, job), id)
  {
    SubmittedTogether(a, b, job);
    HasIdOfConcat(a.queue, [job], id);
    KeepOfConcat(a.queue, [job], {id});
    assert [job][..0] == [] && Keep([job], {id}) == [job];
  }

  lemma KeepFromFront<S, V>(first: Job<S, V>, rest: seq<Job<S, V>>, id: nat)
    requires first.id != id
    ensures Keep([first] + rest, {id}) == [first] + Keep(rest, {id})
    ensures HasId([first] + rest, id) <==> HasId(rest, id)
  {
    KeepOfConcat([first], rest, {id});
    HasIdOfConcat([first], rest, id);
    assert [first][..0] == [] && Keep([first], {id}) == [first];
  }

  lemma StartBeside<S(!new), V(!new)>(a: State<S, V>, b: State<S, V>, id: nat)
    requires WithAndWithout(a, b, id) && a.worker.Idle? && a.queue[0].id != id
    ensures b.queue != [] && WithAndWithout(Started(a), Started(b), id)
  {
    var first, rest := a.queue[0], a.queue[1..];
    assert a.queue == [first] + rest;
    KeepFromFront(first, rest, id);
    assert b.queue == [first] + Keep(rest, {id});
    assert b.queue[0] == first && b.queue[1..] == Keep(rest, {id});
    TakenTogether(a.(queue := rest), b.(queue := Keep(rest, {id})), first, a, b);
  }

  lemma CancelBeside<S(!new), V(!new)>(a: State<S, V>, b: State<S, V>, id: nat, other: nat)
    requires WithAndWithout(a, b, id) && other != id
    ensures WithAndWithout(Cancelled(a, other), Cancelled(b, other), id)
  {
    HasIdOfKeep(a.queue, {id}, other);
    HasIdOfKeep(a.queue, {other}, id);
    KeepTwice(a.queue, {other}, {id});
    KeepTwice(a.queue, {id}, {other});
    assert {other} + {id} == {id} + {other};
  }

  /** A queue that still has the callable after a step had another at its head. */
  lemma HeadIsAnother<S(!new), V(!new)>(c: Conn<S>, st: State<S, V>, id: nat)
    requires Sequential(c, st) && st.queue != [] && HasId(st.queue[1..], id)
    ensures st.queue[0].id != id
  {
    KeepFacts(st.submitted, st.dropped);
    var ahead := st.ran + Now(st.worker);
    var all := ahead + st.queue;
    assert all == st.ran + (Now(st.worker) + st.queue);
    var i :| 0 <= i < |st.queue[1..]| && st.queue[1..][i].id == id;
    assert all[|ahead|] == st.queue[0] && all[|ahead| + i + 1] == st.queue[1..][i];
  }

  lemma StepBeside<S(!new), V(!new)>(c: Conn<S>, a: State<S, V>, b: State<S, V>, id: nat, e: Occurrence<S, V>)
    requires Sequential(c, a) && WithAndWithout(a, b, id) && Enabled(a, e) && HasId(Step(a, e).queue, id)
    ensures Enabled(b, e) && WithAndWithout(Step(a, e), Step(b, e), id)
  {
    match e
    case Submit(job) => EnqueueBeside(a, b, id, job);
    case Start =>
      HeadIsAnother(c, a, id);
      StartBeside(a, b, id);
    case Cancel(other) =>
      HasIdOfKeep(a.queue, {other}, id);
      CancelBeside(a, b, id, other);
    case Statement => SameStatement(a, b);
    case Close(x, hand) =>
      if !a.closed { EnqueueBeside(a.(closed := true), b.(closed := true), id, Job(x, Closing, [], hand)); }
    case _ =>
  }

  /** A callable that has left the queue does not come back. */
  lemma {:induction false} GoneStaysGone<S(!new), V(!new)>(st: State<S, V>, events: seq<Occurrence<S, V>>, id: nat)
    requires Schedule(st, events) && HasId(st.submitted, id) && !HasId(st.queue, id)
    ensures !HasId(Play(st, events).queue, id)
    decreases |events|
  {
    if events != [] {
      GoneAfterStep(st, events[0], id);
      GoneStaysGone(Step(st, events[0]), events[1..], id);
    }
  }

  lemma GoneAfterStep<S(!new), V(!new)>(st: State<S, V>, e: Occurrence<S, V>, id: nat)
    requires Enabled(st, e) && HasId(st.submitted, id) && !HasId(st.queue, id)
    ensures HasId(Step(st, e).submitted, id) && !HasId(Step(st, e).queue, id)
  {
    match e
    case Submit(job) => EnqueuedIsAnother(st, job, id);
    case Close(x, hand) => EnqueuedIsAnother(st, Job(x, Closing, [], hand), id);
    case Cancel(x) => HasIdOfKeep(st.queue, {x}, id);
    case Start =>
      HasIdOfConcat([st.queue[0]], st.queue[1..], id);
      assert [st.queue[0]] + st.queue[1..] == st.queue;
    case _ =>
  }

  lemma EnqueuedIsAnother<S(!new), V(!new)>(st: State<S, V>, job: Job<S, V>, id: nat)
    requires HasId(st.submitted, id) && !HasId(st.submitted, job.id)
    ensures HasId(st.submitted + [job], id)
    ensures HasId(st.queue + [job], id) ==> HasId(st.queue, id)
  {
    HasIdOfConcat(st.submitted, [job], id);
    HasIdOfConcat(st.queue, [job], id);
  }

  lemma SubmittedStays<S(!new), V(!new)>(st: State<S, V>, e: Occurrence<S, V>, id: nat)
    requires Enabled(st, e) && HasId(st.submitted, id)
    ensures HasId(Step(st, e).submitted, id)
  {
    match e
    case Submit(job) => HasIdOfConcat(st.submitted, [job], id);
    case Close(x, hand) => HasIdOfConcat(st.submitted, [Job(x, Closing, [], hand)], id);
    case _ =>
  }

  /** Until it is cancelled, a waiting callable makes no difference to anything but the queue. */
  lemma {:induction false} PlayBeside<S(!new), V(!new)>(c: Conn<S>, a: State<S, V>, b: State<S, V>, id: nat,
                                                        events: seq<Occurrence<S, V>>)
    requires Sequential(c, a) && WithAndWithout(a, b, id) && Schedule(a, events) && HasId(Play(a, events).queue, id)
    ensures Schedule(b, events) && WithAndWithout(Play(a, events), Play(b, events), id)
    decreases |events|
  {
    if events != [] {
      var e := events[0];
      SubmittedStays(a, e, id);
      if !HasId(Step(a, e).queue, id) { GoneStaysGone(Step(a, e), events[1..], id); }
      StepBeside(c, a, b, id, e);
      StepIsSequential(c, a, e);
      PlayBeside(c, Step(a, e), Step(b, e), id, events[1..]);
    }
  }

  lemma SubmitIsBeside<S(!new), V(!new)>(st: State<S, V>, job: Job<S, V>)
    requires InOrder(st) && !HasId(st.submitted, job.id)
    ensures WithAndWithout(Enqueued(st, job), st, job.id)
  {
    HasIdOfConcat(st.queue, [job], job.id);
    assert [job][0].id == job.id;
    forall id ensures HasId(st.submitted, id) ==> HasId(st.submitted + [job], id)
              ensures id == job.id ==> HasId(st.submitted + [job], id) {
      HasIdOfConcat(st.submitted, [job], id);
    }
    NotYetQueued(st, job.id);
    KeepAll(st.queue, job.id);
    KeepOfConcat(st.queue, [job], {job.id});
    assert [job][..0] == [] && Keep([job], {job.id}) == [];
  }

  lemma NotYetQueued<S(!new), V(!new)>(st: State<S, V>, id: nat)
    requires InOrder(st) && !HasId(st.submitted, id)
    ensures forall job :: job in st.queue ==> job.id != id
  {
    KeepIsThere(st.submitted, st.dropped);
    forall job | job in st.queue ensures job.id != id {
      assert job in Keep(st.submitted, st.dropped);
      var i :| 0 <= i < |st.submitted| && st.submitted[i] == job;
    }
  }

  /** Submitting a callable and cancelling it while it still waits might as well not have happened:
      without either, the same schedule is possible from there on, and comes to the same database,
      the same callables run, the same answers and the same work in hand. */
  lemma CancelledLeavesNoTrace<S(!new), V(!new)>(c: Conn<S>, st: State<S, V>, job: Job<S, V>,
                                                 between: seq<Occurrence<S, V>>, rest: seq<Occurrence<S, V>>)
    requires Sequential(c, st) && Enabled(st, Submit(job)) && Schedule(Step(st, Submit(job)), between)
    requires HasId(Play(Step(st, Submit(job)), between).queue, job.id)
    requires Schedule(Step(Play(Step(st, Submit(job)), between), Cancel(job.id)), rest)
    ensures Schedule(st, between) && Schedule(Play(st, between), rest)
    ensures SameWork(Play(Step(Play(Step(st, Submit(job)), between), Cancel(job.id)), rest),
                     Play(Play(st, between), rest))
  {
    var with_ := Step(st, Submit(job));
    StepIsSequential(c, st, Submit(job));
    SubmitIsBeside(st, job);
    PlayBeside(c, with_, st, job.id, between);
    SamePlay(Step(Play(with_, between), Cancel(job.id)), Play(st, between), rest);
  }

  // ---- invariants -------------------------------------------------------------------------------------

  /** A transaction run whole keeps what should always hold. */
  ghost predicate KeepsWhole<S(!new), V(!new)>(job: Job<S, V>, holds: S -> bool) {
    forall c: Conn<S> :: holds(c.db) ==> holds(Whole(job, c).0.db)
  }

  lemma {:induction false} FoldKeeps<S(!new), V(!new)>(c: Conn<S>, jobs: seq<Job<S, V>>, holds: S -> bool)
    requires holds(c.db) && forall i :: 0 <= i < |jobs| ==> KeepsWhole(jobs[i], holds)
    ensures holds(Fold(c, jobs).db)
  {
    if jobs != [] {
      var n := |jobs| - 1;
      assert forall i :: 0 <= i < n ==> jobs[..n][i] == jobs[i];
      FoldKeeps(c, jobs[..n], holds);
      assert KeepsWhole(jobs[n], holds);
    }
  }

  /** So an invariant proved of each transaction on its own holds of what every callable of every
      schedule starts from, every read included, and of what is committed at every moment,
      although it need not hold between two statements of one transaction. */
  lemma InvariantUnderAnySchedule<S(!new), V(!new)>(db: S, events: seq<Occurrence<S, V>>, holds: S -> bool)
    requires Schedule(Fresh(db), events) && holds(db)
    requires forall i ::
               0 <= i < |Play(Fresh(db), events).submitted| ==> KeepsWhole(Play(Fresh(db), events).submitted[i], holds)
    ensures var st := Play(Fresh(db), events);
            && holds(OnDisk(st))
            && forall i :: 0 <= i <= |st.ran| ==> holds(Fold(Conn(db, true), st.ran[..i]).db)
  {
    AnyScheduleIsSequential(db, events);
    var st := Play(Fresh(db), events);
    KeepIsThere(st.submitted, st.dropped);
    forall i | 0 <= i < |st.ran| ensures KeepsWhole(st.ran[i], holds) {
      assert st.ran[i] == (st.ran + (Now(st.worker) + st.queue))[i];
      assert st.ran[i] in st.submitted;
    }
    PrefixesKeep(Conn(db, true), st.ran, holds);
    assert st.ran[..|st.ran|] == st.ran;
  }

  lemma PrefixesKeep<S(!new), V(!new)>(c: Conn<S>, ran: seq<Job<S, V>>, holds: S -> bool)
    requires holds(c.db) && forall i :: 0 <= i < |ran| ==> KeepsWhole(ran[i], holds)
    ensures forall i :: 0 <= i <= |ran| ==> holds(Fold(c, ran[..i]).db)
  {
    forall i | 0 <= i <= |ran| ensures holds(Fold(c, ran[..i]).db) {
      assert forall j :: 0 <= j < i ==> ran[..i][j] == ran[j];
      FoldKeeps(c, ran[..i], holds);
    }
  }
}
