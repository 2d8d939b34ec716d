/** What forgetting one field or note does, as one person has chosen it. */
module Erasure {
  import opened Wrappers
  import opened Tables
  import opened Times

  const DEFAULT_GRACE_DAYS := 30
  const MAX_GRACE_DAYS := 365

  datatype ErasureMode = Grace | Immediate | Tombstone

  datatype ErasurePolicy = ErasurePolicy(mode: ErasureMode, graceDays: int)
  {
    predicate DestroysNow() {
      mode.Immediate?
    }

    /** When a row forgotten at `now` may be destroyed, or None for never.  Leaving the
        calendar raises. */
    function PurgeAfter(now: Instant): Result<Option<Instant>, Error> {
      if !mode.Grace? then Success(None)
      else if OnCalendar(now + graceDays * MICROS_PER_DAY) then Success(Some(now + graceDays * MICROS_PER_DAY))
      else Failure(InstantOutOfRange)
    }

    function Describe(due: Option<Instant>): Detail {
      if DestroysNow() then Erased
      else if due.Some? then ErasedAfter(due.value)
      else Blank
    }
  }

  const TOMBSTONE := ErasurePolicy(Tombstone, DEFAULT_GRACE_DAYS)
}
