/** The event log: what trimming inside every insert leaves, and why trimming and stripping
    can be done in either order. */
module EventLog {
  import opened Wrappers
  import opened Tables
  import opened Books

  /** The untrimmed log after some operations. */
  function FullAfter(full: seq<Event>, ops: seq<LogOp>): seq<Event>
    decreases |ops|
  {
    if ops == [] then full
    else
      match ops[0]
      case Say(record) => FullAfter(Spoken(full, record.event), ops[1..])
      case Strike(scopes) => FullAfter(Struck(full, scopes), ops[1..])
  }

  function HistAfter(hist: seq<Record>, ops: seq<LogOp>): seq<Record>
    decreases |ops|
  {
    if ops == [] then hist
    else
      match ops[0]
      case Say(record) => HistAfter(Remembered(hist, record.event, record.docid), ops[1..])
      case Strike(_) => HistAfter(hist, ops[1..])
  }

  /** The stored log after the same operations: every insert trims. */
  function Replay(log: Log, maxEntries: int, ops: seq<LogOp>): Log
    decreases |ops|
  {
    if ops == [] then log
    else
      match ops[0]
      case Say(record) => Replay(Appended(log, maxEntries, record.event), maxEntries, ops[1..])
      case Strike(scopes) => Replay(Log(Struck(log.events, scopes), log.last), maxEntries, ops[1..])
  }

  function Newest(full: seq<Event>, n: int): (r: seq<Event>)
    ensures n >= 0 ==> |r| <= n
  {
    if n <= 0 then [] else if n >= |full| then full else full[|full| - n..]
  }

  ghost predicate Numbered(full: seq<Event>) {
    forall i {:trigger full[i]} :: 0 <= i < |full| ==> full[i].sequence == i + 1
  }

  /** The stored log is the newest `maxEntries` events of the log that is never trimmed. */
  ghost predicate Stored(log: Log, full: seq<Event>, maxEntries: int) {
    Numbered(full) && log.last == |full| && log.events == Newest(full, maxEntries)
  }

  /** On consecutive sequences, deleting everything up to a bound is cutting off the front. */
  lemma {:induction false} AboveIsSuffix(events: seq<Event>, first: int, bound: int)
    requires forall i {:trigger events[i]} :: 0 <= i < |events| ==> events[i].sequence == first + i
    ensures Above(events, bound) ==
            if bound < first then events else if bound - first + 1 >= |events| then [] else events[bound - first + 1..]
  {
    if events != [] {
      assert forall i {:trigger events[1..][i]} :: 0 <= i < |events| - 1 ==> events[1..][i] == events[i + 1];
      AboveIsSuffix(events[1..], first + 1, bound);
      assert bound < first ==> [events[0]] + events[1..] == events;
    }
  }

  lemma SayKeepsStored(log: Log, full: seq<Event>, maxEntries: int, e: Event)
    requires Stored(log, full, maxEntries)
    ensures Stored(Appended(log, maxEntries, e), Spoken(full, e), maxEntries)
  {
    TrimmedIsNewest(full, maxEntries, e.(sequence := log.last + 1));
    SpokenIsNumbered(full, e);
  }

  /** Adding an event to the newest `n` and trimming against its sequence leaves the newest `n`. */
  lemma TrimmedIsNewest(full: seq<Event>, n: int, said: Event)
    requires Numbered(full) && said.sequence == |full| + 1
    ensures Above(Newest(full, n) + [said], |full| + 1 - n) == Newest(full + [said], n)
  {
    var kept := Newest(full, n) + [said];
    NewestIsConsecutive(full, n, said);
    AboveIsSuffix(kept, |full| + 2 - |kept|, |full| + 1 - n);
    NewestOfOneMore(full, n, said);
  }

  lemma SpokenIsNumbered(full: seq<Event>, e: Event)
    requires Numbered(full)
    ensures Numbered(Spoken(full, e))
  {
  }

  lemma NewestIsConsecutive(full: seq<Event>, n: int, said: Event)
    requires Numbered(full) && said.sequence == |full| + 1
    ensures var kept := Newest(full, n) + [said];
            forall i {:trigger kept[i]} :: 0 <= i < |kept| ==> kept[i].sequence == |full| + 2 - |kept| + i
  {
    var kept := Newest(full, n) + [said];
    assert forall i {:trigger kept[i]} :: 0 <= i < |kept| - 1 ==> kept[i] == full[|full| + 1 - |kept| + i];
  }

  /** The newest of one more event are the newest, that event, and less whatever no longer fits. */
  lemma NewestOfOneMore(full: seq<Event>, n: int, e: Event)
    ensures var kept := Newest(full, n) + [e];
            Newest(full + [e], n) == if n <= 0 then [] else if |kept| > n then kept[|kept| - n..] else kept
  {
  }

  lemma StrikeKeepsStored(log: Log, full: seq<Event>, maxEntries: int, scopes: set<Scope>)
    requires Stored(log, full, maxEntries)
    ensures Stored(Log(Struck(log.events, scopes), log.last), Struck(full, scopes), maxEntries)
  {
  }

  /** Trimming at every insert and stripping whenever a row is destroyed leave the same stored
      log as keeping everything, stripping, and cutting off the front once at the end. */
  lemma {:induction false} ReplayKeepsStored(log: Log, full: seq<Event>, maxEntries: int, ops: seq<LogOp>)
    requires Stored(log, full, maxEntries)
    ensures Stored(Replay(log, maxEntries, ops), FullAfter(full, ops), maxEntries)
    decreases |ops|
  {
    if ops != [] {
      match ops[0]
      case Say(record) =>
        SayKeepsStored(log, full, maxEntries, record.event);
        ReplayKeepsStored(Appended(log, maxEntries, record.event), Spoken(full, record.event), maxEntries, ops[1..]);
      case Strike(scopes) =>
        StrikeKeepsStored(log, full, maxEntries, scopes);
        ReplayKeepsStored(Log(Struck(log.events, scopes), log.last), Struck(full, scopes), maxEntries, ops[1..]);
    }
  }

  /** An event about a persona itself holds no value: a card's texts are never copied. */
  ghost predicate PersonaEventsHoldNoValue(full: seq<Event>) {
    forall i :: 0 <= i < |full| && full[i].action.Noun() == PersonaNoun ==> full[i].oldValue == None
  }

  /** What is said about a persona is said without a value. */
  predicate SpeaksOfNoCard(op: LogOp) {
    op.Say? && op.record.event.action.Noun() == PersonaNoun ==> op.record.event.oldValue == None
  }

  lemma {:induction false} OpsKeepPersonaEvents(full: seq<Event>, ops: seq<LogOp>)
    requires PersonaEventsHoldNoValue(full) && forall i :: 0 <= i < |ops| ==> SpeaksOfNoCard(ops[i])
    ensures PersonaEventsHoldNoValue(FullAfter(full, ops))
    decreases |ops|
  {
    if ops != [] {
      assert SpeaksOfNoCard(ops[0]);
      match ops[0]
      case Say(record) => OpsKeepPersonaEvents(Spoken(full, record.event), ops[1..]);
      case Strike(scopes) => OpsKeepPersonaEvents(Struck(full, scopes), ops[1..]);
    }
  }

  /** So the stored events are exactly those whose sequence exceeds the last one handed out
      less the bound. */
  lemma StoredBySequence(log: Log, full: seq<Event>, maxEntries: int, e: Event)
    requires Stored(log, full, maxEntries)
    ensures e in log.events <==> e in full && e.sequence > log.last - maxEntries
  {
    var n := |full| - |log.events|;
    assert forall i :: 0 <= i < |log.events| ==> log.events[i] == full[n + i];
    if e in full && e.sequence > log.last - maxEntries {
      var i :| 0 <= i < |full| && full[i] == e;
      assert log.events[i - n] == e;
    }
  }
}
