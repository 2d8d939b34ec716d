# The persona memory store, modelled and proved in Dafny

persona-api keeps what an assistant remembers about itself and its person: small identity cards, named
*fields* and free-text *notes*, two full-text indexes that are kept in step with their tables by hand, and a
capped log of what changed. This project models that store as one state machine, together with the parts it
depends on (cursors, stamps, JSON, key folding, search expressions, the credential check, the single-worker
executor, the sweeper, a person's preferences), and proves what holds in every state of every run.

Check it with `dafny verify dfyconfig.toml`.

## How it is built

- **Codecs and rules** are functions with their laws beside them: `Text`, `Utf8`, `Cursors`, `Times`, `Json`,
  `FieldValues`, `Projection`, `Keys`, `Query`, `Search`, `Secrets` with `Shapes` and `Identifiers`, `Erasure`, `Due`,
  `Paging`, `Preferences`, `Vetting`.
- **The database** is `Tables`: the cards, a `Shelf` for fields and one for notes (rows by key, index text by docid,
  the docid counter) and the event log. `Transactions` gives each transaction the stores submit as a function from the
  database before to the database after, with the operations it made on the log.
- **The stores** are classes that change a `Connection` statement by statement: `FieldStore`, `NoteStore`,
  `PersonaStore` with `Sweeper` and `PersonaService`, and `SqlEventLog`. Every method is proved to leave exactly the
  database, and to give exactly the reply, that the transaction function says, errors and rollbacks included.
- **The machine** is `Machine`: commands, runs, and a `World` that adds what the database does not keep: the log as it
  would stand untrimmed, every event as it was first written with the docid of the row it was about, and the personas
  ever deleted. `Books` proves once, for fields and notes alike, that each of five kinds of change keeps the
  invariant. `Reachable`, `Leaves`, `Listings`, `Answered`, `ReadBack`, `Findable`, `Erasing`, `Caps`, `Isolation`,
  `Docids`, `Repeating`, `Sweeping` and `PageWalks` say what follows. `Calls` shows that every call of the stores,
  with raw and possibly refused input, is a run of the machine, and that any interleaving of the transactions of such
  calls is one.
- **The executor** is `Executor`: a queue, one worker, BEGIN, statements, COMMIT or ROLLBACK, cancellation and
  closing, with any interleaving of them; `Schedules` says what comes of one, by its events alone; `Concurrency` puts
  the machine behind it, and `StoreJobs` gives the callables the stores submit, `set` statement by statement, and
  shows each to be a transaction of the machine.

The Unicode tables and the stemmer are a parameter `u: Unicode` with the few facts the service relies on
(`u.Facts()`): a space is a space, printable ASCII is not, snake-case characters are their own lower case, spaces are
no word characters and are unchanged by lower-casing, and neither `"` nor `_` is a word character. Clocks, minted ids,
the ranks of search results and the choices SQL leaves to the database (ties in an ORDER BY) are parameters or
nondeterministic answers.

## What turned out otherwise than it reads

- The cap on pinned fields is not kept by every run. Forgetting leaves a row pinned, and reviving it asks for no room
  among the pinned. `Caps.PinnedCapFailsExactlyOnRevive` gives the exact condition for one write,
  `Caps.PinnedFieldsCapExactly` that for a whole run, and `PinnedRevival` a run of five calls that exceeds the cap.
- A `key_prefix` of `forms_` selects keys that start with `forms`, because normalising drops the trailing underscore
  (`Keys.PrefixFilterSelects`).
- A cursor survives the round trip exactly when its sort key holds no U+001F (`Cursors.CursorRoundTrip`); every stamp
  column and every sequence is such a key.

## Model

| member | source | states |
|---|---|---|
| `Reachable.GoodKept` | src/persona_api/memory/fields.py:192-238 | every transaction of the service keeps everything that is to hold: docids and index entries one per live row, terms, log values, revisions, history, foreign keys, vetted texts, the trimmed log |
| `Reachable.RunIsGood` | src/persona_api/memory/notes.py:111-152 | so every state of every run is good |
| `Reachable.ReachableIsGood` | src/persona_api/memory/notes.py:255-319 | and so is every state the service can get to |
| `Reachable.OneEntryPerLiveRow` | src/persona_api/memory/fields.py:667-694 | in every reachable state a docid is in an index exactly when a live row has it, and no two rows share one |
| `Reachable.IndexSaysWhatRowsSay` | src/persona_api/memory/fields.py:602-603 | in every reachable state the text under a live field's docid has the bag of terms of its key, description and decoded stored value, each as often, and the text under a live note's docid is its body |
| `Reachable.ReachableByRuns` | src/persona_api/storage/database.py:225-235 | the states that are in every set closed under the service's transactions are exactly those a run from the empty store ends in |
| `Reachable.SearchIsScan` | src/persona_api/memory/fields.py:323-347 | in every reachable state the fields the index matches are exactly those a scan of the account's live rows would find from the rows alone |
| `Reachable.NoteSearchIsScan` | src/persona_api/memory/notes.py:202-221 | the same for notes |
| `Leaves.WordsAreSaid` | src/persona_api/domain/fields.py:276-297 | the words collected from a value are exactly what stands in it somewhere: object keys, strings that are not empty, numbers and booleans as they are spelled, at any depth, and nothing for null |
| `Leaves.FieldTextTerms` | src/persona_api/domain/fields.py:257-274 | the terms a field is indexed under are exactly those of its key, its description and everything its value says |
| `Leaves.SearchMatchesExactly` | src/persona_api/memory/fields.py:323-347 | in every reachable state a search matches a field exactly if it is a live one of the account, and of the profile if one is named, and a word typed is, both stemmed, a word of its key, its description or anything its decoded value says |
| `Leaves.NoteSearchMatchesExactly` | src/persona_api/memory/notes.py:202-221 | and a note exactly if it is such a one and its body has such a word |
| `Findable.WrittenFieldIsFound` | src/persona_api/memory/fields.py:148-246 | right after an accepted write the field is found exactly by the words of its key, its description and everything the caller's value says |
| `Findable.ForgottenFieldIsNotFound` | src/persona_api/memory/fields.py:384-395 | right after it was forgotten no search finds it, whatever the policy |
| `Findable.WrittenNoteIsFound` | src/persona_api/memory/notes.py:82-154 | a written note is found exactly by the words of what the caller wrote |
| `Findable.ForgottenNoteIsNotFound` | src/persona_api/memory/notes.py:347-381 | and once forgotten by none |
| `Reachable.SearchFindsWhatIsThere` | src/persona_api/memory/fields.py:338-347 | with a limit large enough a search returns exactly the scan's fields, and otherwise the best-ranked of them, as many as the limit |
| `Reachable.NoteSearchFindsWhatIsThere` | src/persona_api/memory/notes.py:202-221 | the same for notes |
| `Docids.DocidsNeverReused` | src/persona_api/storage/migrations/0001_initial.sql:35-56 | over any run a docid once handed out is only ever held by the row that holds it now |
| `Reachable.LoggedValuesHaveRows` | src/persona_api/events/sql_log.py:114-139 | in every reachable state a value the log still holds was copied from a field or note that still exists in the same incarnation; an event about a persona never holds one |
| `Reachable.ValuesLiveAsLongAsRows` | src/persona_api/events/sql_log.py:114-139 | and the other way round: in every reachable state each stored event is exactly what was written if the row it was about is still there in the same incarnation, and otherwise that without its value |
| `Reachable.StoredLogIsNewestHistory` | src/persona_api/events/sql_log.py:75-98 | in every reachable state the stored log is the last `max_entries` events of the full history, each as written except for a stripped value |
| `Reachable.RowsAgreeWithHistory` | src/persona_api/memory/fields.py:584-620 | a row's revision is the number of events that wrote it since its insertion, and in a persona never deleted a key or note is live exactly when its last event is no forget |
| `Reachable.NoCredentialStored` | src/persona_api/memory/fields.py:183-186 | in every reachable state no stored value text, description, body or card text holds a known key, a private key block or a web token at a boundary, or a dense run of its own |
| `Books.ChangeKeeps` | src/persona_api/memory/notes.py:301-319 | each way of changing a table with its index and events keeps the whole invariant, for fields and notes alike |
| `Books.OtherBookKept` | src/persona_api/memory/fields.py:461-471 | a change to the fields, with its event or strip in the shared log, keeps the notes' invariant, and the other way round |
| `Books.ValueOutlives` | src/persona_api/memory/notes.py:449-464 | a change either keeps the row a logged value was copied from or strips the value |
| `EventLog.ReplayKeepsStored` | src/persona_api/events/sql_log.py:75-98 | trimming at every insert and stripping in between leave what keeping everything, stripping, and cutting off the front once would leave |
| `EventLog.StoredBySequence` | src/persona_api/events/sql_log.py:92-98 | an event of the full log is stored exactly when its sequence exceeds the last one less `max_entries` |
| `EventLog.AboveIsSuffix` | src/persona_api/events/sql_log.py:92-98 | deleting up to a sequence, on consecutive sequences, is cutting off the front |
| `Storage.StruckTwice` | src/persona_api/events/sql_log.py:125-130 | stripping two scopes one after the other is stripping both |
| `Erasing.ForgottenFieldStep` | src/persona_api/memory/fields.py:196-238 | a transaction leaves a forgotten field as it is, or revives that row inside its term, or replaces it by a new revision-1 row after its term, or sweeps it after its term |
| `Erasing.ForgottenFieldWaits` | src/persona_api/domain/erasure.py:67-75 | over any run without deleting the persona a forgotten field keeps its row and term whatever policies are used, until its key is set or a sweep finds the term ended |
| `Erasing.NeverDestroyedEarly` | src/persona_api/memory/fields.py:424-433 | a forgotten field that is gone without having been set had a term and was swept at or after it |
| `Erasing.ForgottenNoteStep` | src/persona_api/memory/notes.py:347-381 | a transaction leaves a forgotten note as it is or sweeps it after its term; nothing brings it back |
| `Erasing.ForgottenNoteWaits` | src/persona_api/memory/notes.py:396-405 | over any run a forgotten note stays until a sweep finds its term ended, and for good if it has none |
| `Erasing.LiveRowsNeverDue` | src/persona_api/memory/fields.py:582-601 | in every reachable state a live row has no term |
| `ReadBack.SetStoresWhatItSays` | src/persona_api/memory/fields.py:536-628 | an accepted write stores what it says, keeps the row's id, creation time and docid, and touches no other row |
| `ReadBack.SetReadsBack` | src/persona_api/memory/fields.py:148-246 | decoding the text a write stored gives the caller's value up to the order of object keys |
| `Answered.FieldIsVetted` | src/persona_api/memory/fields.py:172-186 | a field is refused for its key, then for a description that is blank or over 200 characters once trimmed, then for its value, then for a value text or description shaped like a credential, with the error of each; otherwise its texts are those |
| `Answered.ValueIsVetted` | src/persona_api/domain/fields.py:244-254 | a value is accepted exactly if its shape is within the limits and its canonical text within the bytes, and the text is that one |
| `Answered.SetIsAnswered` | src/persona_api/memory/fields.py:148-246 | what is vetted is submitted as its caller asked: the owner, author, pin, ceiling and logging of the call |
| `Answered.FieldWriteIsAnswered` | src/persona_api/memory/fields.py:630-665 | a vetted write is refused exactly when there is no room among the live fields, no room among the pinned for a new pin under the ceiling named or the deployment's, or no persona for a new row, with the error of the first of these |
| `ReadBack.SetIsLogged` | src/persona_api/memory/fields.py:604-620 | the newest event is about the write: set or revised by whether the key was live, with the type or the new revision number, and the old text exactly when it was replaced and logging was on |
| `Answered.WriteIsAnswered` | src/persona_api/memory/notes.py:82-154 | a written note is stored and indexed as the body without the spaces around it, whole; it is refused for a blank or over-long body, for one shaped like a credential, for want of room, of room among the pinned, or of a persona, in that order and with the error of each |
| `ReadBack.WriteIsLogged` | src/persona_api/memory/notes.py:142-152 | the newest event says that it was written and of what kind |
| `Answered.ReviseIsAnswered` | src/persona_api/memory/notes.py:240-300 | a revision is refused for its body, then for want of a live note of this persona, then of room for a new pin, with the error of each; otherwise it is the transaction with the trimmed body |
| `Answered.NoteIsRevised` | src/persona_api/memory/notes.py:255-319 | which leaves a note that is as it was alone, and otherwise writes content, pin, author, revision and time, and the index with it |
| `ReadBack.ReviseChangesWhatIsNamed` | src/persona_api/memory/notes.py:255-319 | revising changes the named parts and no others, and changes nothing at all exactly when they are as they were |
| `ReadBack.ReviseIsLogged` | src/persona_api/memory/notes.py:303-319 | the event keeps a JSON string that decodes to the old body exactly when the body changed and logging was on |
| `ReadBack.ForgettingANote` | src/persona_api/memory/notes.py:347-381 | a forgotten note is gone if that was asked, and otherwise hidden with the term its policy gives |
| `ReadBack.ForgetFieldIsLogged` | src/persona_api/memory/fields.py:384-404 | the newest event names what was forgotten and what becomes of it (nothing left, its term, or nothing said), with no value, and destroying the row at once leaves it there |
| `ReadBack.ForgetNoteIsLogged` | src/persona_api/memory/notes.py:347-381 | the same for notes |
| `Answered.ForgetFieldIsAnswered` | src/persona_api/memory/fields.py:372-404 | forgetting is refused for what cannot be a key, a term off the calendar and a field that is not live, in that order; otherwise the row is gone, or hidden with now plus the grace days, or hidden for good, by the policy, and everything else about it and beside it stays |
| `Answered.ForgetNoteIsAnswered` | src/persona_api/memory/notes.py:347-381 | the same for notes |
| `ReadBack.CreateReadsBack` | src/persona_api/personas/service.py:119-161 | a created card holds the caller's texts trimmed, or none where they are blank, within their limits and no credential; the account was below its cap; the newest event says created |
| `Answered.CreateIsAnswered` | src/persona_api/personas/service.py:119-161 | and it is refused for a text over its length (120, 40 and 600), one shaped like a credential, a persona there already, the account's cap or a taken id, in that order and with the error of each |
| `Answered.EnsureIsAnswered` | src/persona_api/personas/service.py:163-181 | asking for a persona gives the one there is and changes nothing, or makes one with no texts as far as the account has room |
| `ReadBack.UpdateReadsBack` | src/persona_api/personas/service.py:201-244 | an updated card holds the new texts in the same way and keeps its id and creation time |
| `Answered.UpdateIsAnswered` | src/persona_api/personas/service.py:201-244 | and an update is refused for its texts first and then for want of the persona |
| `ReadBack.DeleteLeavesNothing` | src/persona_api/personas/store.py:150-176 | a deleted persona leaves no card, row, index entry or logged value of its own, and everybody else's rows as they were |
| `Repeating.RepeatedSetChangesNothing` | src/persona_api/memory/fields.py:558-568 | after any accepted write an equivalent one changes nothing: no row, index entry, docid or event |
| `Repeating.UnchangedExactlyWhenSame` | src/persona_api/memory/fields.py:558-568 | an accepted write to a live field changes nothing exactly when value, description and pin are the same |
| `Caps.CapsHoldOverRuns` | src/persona_api/memory/notes.py:418-447 | live fields, live notes and pinned live notes per persona and personas per account stay within their caps over every run |
| `Caps.PinnedCapFailsExactlyOnRevive` | src/persona_api/memory/fields.py:570-580 | from a state within the pinned-fields cap a write exceeds it if and only if it revives a still-pinned tombstone while the budget is full |
| `Caps.PinnedFieldsCapExactly` | src/persona_api/memory/fields.py:570-580 | over any run the pinned-fields cap holds in every state if and only if no command of it revives a still-pinned tombstone while its owner's budget is full |
| `Caps.PinnedFieldsCapOverRuns` | src/persona_api/memory/fields.py:655-665 | in particular on every run that never revives a still-pinned tombstone |
| `PinnedRevival.PinnedCapCanBeExceeded` | src/persona_api/memory/fields.py:570-580 | there is a run of ordinary calls after which more fields are pinned than the cap allows |
| `Preferences.ChoicesOnlyNarrow` | src/persona_api/core/preferences.py:228-236 | whatever was chosen, a person's ceilings and page size lie between one and the deployment's |
| `Preferences.UsableChoiceCounts` | src/persona_api/core/preferences.py:239-257 | a ceiling, and the default page size, is the largest number within both the deployment's and a usable choice |
| `Preferences.NothingIsDestroyedUnasked` | src/persona_api/core/preferences.py:284-300 | the policy is other than a tombstone exactly where that was named, and grace days lie in 0..365 |
| `Preferences.ChoicesAreHeeded` | src/persona_api/core/preferences.py:271-300 | a grace period has the days named if they are a whole number from 0 to 365 and thirty otherwise, and values are logged exactly if that was switched on |
| `Preferences.WithoutSettings` | src/persona_api/core/preferences.py:156-184 | when the settings cannot be had the deployment's numbers hold, with tombstones and no logging; when they were refused the request fails |
| `Preferences.ChosenTermsAreInstants` | src/persona_api/domain/erasure.py:67-75 | the term of a chosen policy is an instant not before now, outside the calendar's last year |
| `Preferences.CapsHoldWhateverIsChosen` | src/persona_api/core/preferences.py:188-203 | from the empty store every run held to people's preferences stays within the deployment's caps, and within the pinned-fields one exactly when no revival goes beyond the budget |
| `Isolation.OwnOperationIsTheSame` | src/persona_api/memory/fields.py:192-238 | an operation gives the same outcome and the same own slice in any two states in which the caller's account looks the same, docids apart |
| `Isolation.OtherSlicesAreUntouched` | src/persona_api/personas/store.py:161-172 | and leaves every other account's cards, fields, notes and index text as they were |
| `Isolation.ReadsAreTheSame` | src/persona_api/memory/fields.py:265-287 | what an account's listings page through and its searches match depends on its own slice alone |
| `Isolation.OthersLeaveNoTrace` | src/persona_api/memory/notes.py:255-260 | over any run without sweeps an account's slice at the end, and everything it is told on the way, is what it would be had only that account called |
| `Isolation.OnlyOwnCallsMatter` | src/persona_api/personas/store.py:54-71 | in particular from the empty store: both are those of its own calls alone |
| `Executor.AnyScheduleIsSequential` | src/persona_api/storage/database.py:215-235 | for any schedule of submits, statements, exceptions, cancellations and closes, what is committed and every answer, reads included, is that of the callables that ran, whole and in queue order |
| `Schedules.SubmittedIsHanded` | src/persona_api/storage/database.py:215-235 | the callables on record are those the submits and the first close of the schedule handed in, in order, whatever else happened |
| `Schedules.DroppedIsGivenUp` | src/persona_api/storage/database.py:215-223 | a callable is dropped if and only if some cancellation in the schedule found it waiting |
| `Schedules.NothingIsLost` | src/persona_api/storage/database.py:215-235 | so what ran, runs and waits is at every moment exactly what was handed in, in order, less what was given up while it waited |
| `Schedules.WithoutCancels` | src/persona_api/storage/database.py:215-235 | and without cancellations exactly what was handed in |
| `Schedules.NobodyIsKeptWaiting` | src/persona_api/storage/database.py:215-223 | anybody may give up at any time, and hand in or close until the worker has gone |
| `Schedules.EverythingIsAnswered` | src/persona_api/storage/database.py:215-235 | from any moment the worker's own moves come to an end, after which everything handed in and not given up has run in order and been answered as if run whole |
| `Schedules.AllOrNothing` | src/persona_api/storage/database.py:332-343 | a callable goes through all its statements, each from where the one before left things, and commits and returns what the last one leaves; or it raises and nothing has changed |
| `Executor.StepIsSequential` | src/persona_api/storage/database.py:332-343 | each event of a schedule keeps that |
| `Executor.CancelledLeavesNoTrace` | src/persona_api/storage/database.py:215-223 | a callable submitted anywhere in a schedule and cancelled any time later, while it still waited, can be erased with its cancellation: what ran, every answer and what is on disk are the same, through any continuation |
| `Executor.DroppedNeverRuns` | src/persona_api/storage/database.py:215-223 | a dropped callable never runs in any continuation |
| `Executor.ClosedIsFinal` | src/persona_api/storage/database.py:280-302 | once the connection is closed no continuation opens it again or changes anything committed |
| `Executor.InvariantUnderAnySchedule` | src/persona_api/storage/database.py:225-235 | an invariant each callable keeps on its own holds of what every callable starts from and of what is committed at every moment |
| `Executor.Database.InTransaction` | src/persona_api/storage/database.py:332-343 | BEGIN, the statements, COMMIT or on a raise ROLLBACK leave what the whole callable leaves, with its answer |
| `Executor.Database.ServeNext` | src/persona_api/storage/database.py:158-172 | the worker takes the head of the queue and carries it out whole |
| `Executor.Database.Close` | src/persona_api/storage/database.py:280-302 | only the first close submits one |
| `Concurrency.GoodUnderAnySchedule` | src/persona_api/storage/database.py:225-235 | if each callable submitted is a transaction of the store, the store's invariant holds of what every callable starts from and of what is committed, under any schedule |
| `StoreJobs.SetIsTheCommand` | src/persona_api/memory/fields.py:192-238 | the set transaction cut into its statements (destroy a tombstone past its term, check the caps, write the row, index it, append the event) leaves what the machine's command leaves, or raises and leaves nothing |
| `StoreJobs.SetJobIsTransaction` | src/persona_api/memory/fields.py:192-238 | so the callable that `set` submits, with other callables queued around it, is a transaction of the store |
| `StoreJobs.SweepFieldsJobIsTransaction` | src/persona_api/memory/fields.py:412-435 | and so is the sweep, which picks its rows inside the callable, from the database as it finds it |
| `StoreJobs.CommandJobIsTransaction` | src/persona_api/storage/database.py:225-235 | and so is any other command that is possible wherever it is submitted, as one statement |
| `StoreJobs.StoresStayGood` | src/persona_api/storage/database.py:215-235 | so behind the executor, with callables of the stores and reads in any interleaving, exceptions, cancellations and closes included, every callable starts from and commits a good store |
| `Calls.CallIsRun` | src/persona_api/memory/fields.py:172-246 | every call of the stores and the service (ensuring a persona included), vetting and refusals included, leaves what the transactions it submits leave, and they are possible where submitted |
| `Calls.CallsStayGood` | src/persona_api/personas/service.py:119-269 | so after any calls with any arguments, one after another, the database is a good one |
| `Calls.InterleavedCallsStayGood` | src/persona_api/personas/service.py:119-269 | and so it is when the transactions of any calls are interleaved in any way, those of two-transaction calls apart from one another |
| `PageWalks.NoNoteTwice` | src/persona_api/memory/notes.py:168-190 | a walk of a persona's notes, finished or not, shows no note twice, whatever is written, revised, forgotten and purged between pages |
| `PageWalks.MatchingNoteIsShown` | src/persona_api/memory/notes.py:528-533 | and a finished one shows every note that matches the filters at each fetch |
| `PageWalks.NoFieldTwice` | src/persona_api/memory/fields.py:265-287 | a walk of a persona's fields, finished or not, shows no field twice while the clock does not go back |
| `PageWalks.UntouchedFieldIsShownOnce` | src/persona_api/memory/fields.py:736-741 | and a finished one shows every matching field not written during the walk exactly once, whatever the clock does |
| `PageWalks.EventWalk` | src/persona_api/events/sql_log.py:165-189 | a walk of a persona's events shows each event there at its beginning and still there at its end exactly once |
| `PageWalks.EventCursorSelectsWhatFollows` | src/persona_api/events/sql_log.py:165-189 | the cursor of an event decodes to the decimal spelling of its sequence, and the sequences below that number are exactly those that follow it |
| `PageWalks.CursorSelectsWhatFollows` | src/persona_api/memory/fields.py:279-287 | the cursor of a row decodes to its column and id, and comparing those as texts selects exactly the rows that follow it |
| `Paging.NoPositionTwice` | src/persona_api/memory/fields.py:274-287 | over tables that change between fetches no walk, finished or not, shows a place twice, on two pages or on one |
| `Paging.SteadyPositionShownOnce` | src/persona_api/memory/notes.py:177-190 | and a finished one shows a place held at every fetch exactly once |
| `Paging.NoIdTwice` | src/persona_api/memory/fields.py:274-287 | if sort instants never go back no id is shown twice, by a walk finished or not |
| `Paging.FrozenWalk` | src/persona_api/memory/fields.py:736-741 | on a table that does not change a walk takes max(1, ceil(n/limit)) pages and no cursor leads to an empty page |
| `Paging.FetchPage` | src/persona_api/memory/notes.py:528-533 | asking for one row more than is shown gives the page and says rightly whether there is another |
| `Paging.SelectLatest` | src/persona_api/memory/notes.py:177-190 | ORDER BY ... DESC LIMIT n: the n latest rows, latest first |
| `Sweeping.SweepsAreOneSweep` | src/persona_api/memory/sweeper.py:63-73 | n sweeps of a batch destroy what one sweep of n batches might have: the rows due longest, and none due later than one left behind |
| `Sweeping.SweepingDrains` | src/persona_api/memory/sweeper.py:63-73 | nothing is due after n sweeps if and only if n is at least ceil(max(fields, notes)/batch), and if and only if the returned counts add up to everything due |
| `Sweeping.NotDueIsUntouched` | src/persona_api/memory/fields.py:424-433 | no number of sweeps touches a row that is not due |
| `Due.SelectDue` | src/persona_api/memory/fields.py:424-433 | the rows due longest, as many as the limit allows, each once |
| `Due.WhatIsSwept` | src/persona_api/memory/fields.py:424-433 | only rows whose term has come, the longest due first; and if fewer than the limit, every row whose term has come |
| `PersonaStore.Sweeper.SweepOnce` | src/persona_api/memory/sweeper.py:63-73 | one batch of each kind, in two transactions, and how many rows went |
| `FieldStore.FieldStore.Set` | src/persona_api/memory/fields.py:148-246 | vetting and then the transaction leave what they are specified to leave, with the same reply, rollback included |
| `FieldStore.FieldStore.Insert` | src/persona_api/memory/fields.py:473-534 | caps, docid, row, index entry and event of a new field |
| `FieldStore.FieldStore.Revise` | src/persona_api/memory/fields.py:536-628 | the unchanged test, caps, row, index entry and event of a rewritten or revived field |
| `FieldStore.FieldStore.Forget` | src/persona_api/memory/fields.py:349-410 | forgetting as specified for each policy, not found and rollback included |
| `FieldStore.FieldStore.PurgeDue` | src/persona_api/memory/fields.py:412-435 | one transaction destroys up to the limit of the fields due longest, with their index entries and logged values |
| `FieldStore.FieldStore.Destroy` | src/persona_api/memory/fields.py:447-471 | deleting row by row and stripping one by one leave what destroying them all at once leaves |
| `FieldStore.FieldStore.Get` | src/persona_api/memory/fields.py:248-263 | the field with the normalised key if it is there and live, or there at all if the forgotten are asked for |
| `FieldStore.FieldStore.ListForPersona` | src/persona_api/memory/fields.py:265-287 | a page of the rows that satisfy every filter, or an invalid key; which rows those are is `Listings.FieldsListed` |
| `Listings.FieldsListed` | src/persona_api/memory/fields.py:700-733 | in every reachable state what is paged through is exactly the persona's fields that are live (or all), from the source, with the pin, starting with the normalised prefix unless it is blank, named by one of the keys once normalised, changed at or after the one instant and before the other; each where its last change and key put it |
| `Listings.ListingIsRefusedExactlyWhen` | src/persona_api/memory/fields.py:717-726 | a listing is refused exactly if its prefix is not blank and no key, or one of its keys is none |
| `Listings.AllFieldsListed` | src/persona_api/personas/service.py:288-320 | an export asks for the persona's fields, all of them or the live ones |
| `Listings.StoredFieldsAreProper` | src/persona_api/memory/fields.py:172-183 | in every reachable state each field has a key of the stored form and a type column that names the type of the value its text decodes to |
| `FieldStore.FieldStore.Search` | src/persona_api/memory/fields.py:323-347 | the best-ranked matching live rows of the account, best first, none twice, as many as the limit allows |
| `FieldStore.FieldStore.CheckCaps` | src/persona_api/memory/fields.py:630-665 | the refusal by live count, then by pinned count |
| `NoteStore.NoteStore.Write` | src/persona_api/memory/notes.py:82-154 | vetting and the transaction as specified |
| `NoteStore.NoteStore.Revise` | src/persona_api/memory/notes.py:223-323 | vetting and the transaction as specified, only the pin cap checked and only for a new pin |
| `NoteStore.NoteStore.Forget` | src/persona_api/memory/notes.py:325-387 | forgetting as specified for each policy |
| `NoteStore.NoteStore.PurgeDue` | src/persona_api/memory/notes.py:389-407 | one transaction destroys up to the limit of the notes due longest |
| `NoteStore.NoteStore.Destroy` | src/persona_api/memory/notes.py:449-464 | as for fields, stripping by each note's own persona |
| `NoteStore.NoteStore.ListForPersona` | src/persona_api/memory/notes.py:168-190 | a page of the rows that satisfy every filter |
| `Listings.NotesListed` | src/persona_api/memory/notes.py:502-526 | which are the persona's notes that are live (or all), of the kind, from the source, with the pin, written at or after the one instant and before the other; each where its writing and id put it |
| `NoteStore.NoteStore.Search` | src/persona_api/memory/notes.py:202-221 | the best-ranked matching live notes of the account, best first, none twice |
| `NoteStore.NoteStore.CheckCaps` | src/persona_api/memory/notes.py:418-447 | the refusal by live count, then by pinned count |
| `PersonaStore.PersonaStore.Add` | src/persona_api/personas/store.py:46-87 | a new card, or exists, or the account's cap, or a taken id |
| `PersonaStore.PersonaStore.Update` | src/persona_api/personas/store.py:115-148 | the card's texts replaced, or nothing if there is none |
| `PersonaStore.PersonaStore.Delete` | src/persona_api/personas/store.py:150-176 | the card, its fields and notes with their index entries, and every value the log kept about them |
| `PersonaStore.PersonaService.Create` | src/persona_api/personas/service.py:119-161 | vetted, added within the cap, then announced in a second transaction; refusals change nothing |
| `PersonaStore.PersonaService.Ensure` | src/persona_api/personas/service.py:163-181 | the persona there is, unchanged, or a new blank one |
| `PersonaStore.PersonaService.Update` | src/persona_api/personas/service.py:201-244 | vetted before it is looked for, replaced, then announced |
| `PersonaStore.PersonaService.Delete` | src/persona_api/personas/service.py:246-269 | deleted, and the deletion announced after it so that the event outlives it |
| `PersonaStore.PersonaService.Export` | src/persona_api/personas/service.py:288-320 | the card with one page of fields and one of notes, each by its own cursor |
| `Storage.SqlEventLog.Append` | src/persona_api/events/sql_log.py:60-112 | the next sequence, the insert and the trim |
| `Storage.SqlEventLog.StripValues` | src/persona_api/events/sql_log.py:114-130 | of all events exactly those of that persona, about that kind of row and with one of those subjects lose their value; one update per subject strips what one update of all of them would |
| `Storage.SqlEventLog.StripPersonaValues` | src/persona_api/events/sql_log.py:132-139 | of all events exactly those of that persona lose their value |
| `Storage.SqlEventLog.Recent` | src/persona_api/events/sql_log.py:165-189 | a page of the persona's events by sequence |
| `Listings.EventsListed` | src/persona_api/events/sql_log.py:165-178 | which are that persona's and nobody else's |
| `Storage.Connection.Rollback` | src/persona_api/storage/database.py:332-343 | the database as it was at BEGIN |
| `Storage.Connection.DeleteField` | src/persona_api/storage/migrations/0001_initial.sql:152-154 | a deleted row takes its index entry with it |
| `Vetting.VettingIsEnough` | src/persona_api/memory/fields.py:172-190 | everything accepted has a proper key, is no credential, decodes, and is indexed under the words its decoded form has |
| `FieldValues.CheckAccepts` | src/persona_api/domain/fields.py:300-371 | acceptance is exactly the shallow shape within the limits |
| `FieldValues.StoredTextDecodes` | src/persona_api/domain/fields.py:229-254 | decoding the canonical text of an accepted value gives it back up to the order of object keys |
| `FieldValues.SameTextSameValue` | src/persona_api/domain/fields.py:229-254 | two accepted values have the same canonical text exactly when they are the same value |
| `Json.LoadsRendered` | src/persona_api/domain/fields.py:242-254 | reading what was written gives the value back, number spellings kept, by sections 4 to 7 of RFC 8259 |
| `Json.LoadsAsciiString` | src/persona_api/memory/notes.py:303-319 | any text survives the ASCII-only escaping, surrogate pairs included |
| `Projection.CollectWords` | src/persona_api/domain/fields.py:276-297 | the loops collect the words of a value in order; which words those are is `Leaves.WordsAreSaid` |
| `Projection.FieldTextSorted` | src/persona_api/domain/fields.py:257-274 | a field's index text has the same bag of words whether object keys are in the caller's order or sorted |
| `Cursors.CursorRoundTrip` | src/persona_api/domain/cursors.py:29-55 | a cursor gives back the pair it was made from exactly when the sort key holds no separator |
| `Cursors.Base64RoundTrip` | src/persona_api/domain/cursors.py:29-32 | base64url (section 5 of RFC 4648) decodes to the bytes it was made from |
| `Cursors.Base64Spelled` | src/persona_api/domain/cursors.py:29-32 | each character is the letter for its six bits of three bytes taken as one number, or padding |
| `Cursors.CursorSpelled` | src/persona_api/domain/cursors.py:29-32 | a cursor is that encoding of the sort key, U+001F and the row id in UTF-8, its padding dropped |
| `Cursors.PaddingRestored` | src/persona_api/domain/cursors.py:45-48 | the padding arithmetic puts back exactly what was stripped |
| `Utf8.RoundTrip` | src/persona_api/domain/cursors.py:29-32 | UTF-8 (section 3 of RFC 3629) decodes to the text it was made from |
| `Utf8.CharSpelled` | src/persona_api/domain/cursors.py:29-32 | each character has one to four bytes by its number, which tell how many they are and carry its bits six at a time |
| `Times.ColumnOrderIsTime` | src/persona_api/storage/times.py:27-40 | text order of stamps is chronological order, whatever zones the moments were given in, and equal stamps are equal instants |
| `Times.ClockShows` | src/persona_api/storage/times.py:27-40 | the instant stored is the one at which a clock so far ahead of UTC shows what the caller said |
| `Times.IsoformatLayout` | src/persona_api/storage/times.py:27-40 | year, month, day, hour, minute, second and microsecond stand at fixed places, in digits, before +00:00 |
| `Times.ColumnRoundTrip` | src/persona_api/storage/times.py:43-45 | a stamp is 32 characters and reads back as the same instant in UTC |
| `Keys.FoldIsCutAndJoin` | src/persona_api/domain/fields.py:127-161 | the passes are lower-casing, cutting at runs of whitespace, hyphen and underscore, and joining with one underscore |
| `Keys.NormalizedKeysAreStoredKeys` | src/persona_api/domain/fields.py:127-161 | results are exactly the separator-clean keys of the grammar within the limit, and normalising them changes nothing |
| `Keys.KeyIsAcceptedExactly` | src/persona_api/domain/fields.py:127-161 | a key is accepted exactly if what the cut and join leave is 1 to 64 small letters, digits and underscores starting with a letter |
| `Keys.RangeIsPrefix` | src/persona_api/memory/fields.py:717-721 | the range of a prefix filter selects exactly the keys that start with the prefix |
| `Keys.PrefixFilterSelects` | src/persona_api/memory/fields.py:717-721 | which prefix that is: the normalised one, its trailing underscore dropped |
| `Query.QueryReadsBack` | src/persona_api/memory/search.py:63-85 | a search is refused exactly when it holds no word character, and otherwise an FTS5 reader gets back precisely its words in order, joined by OR |
| `Search.ExpressionFindsWords` | src/persona_api/memory/search.py:63-85 | what such an expression matches is a text with some word typed, both stemmed |
| `Shapes.RefusedExactly` | src/persona_api/domain/secrets.py:115-229 | a text is refused if and only if it holds, after a boundary, one of the listed prefixes and enough of its body, or a private key block, or a web token, or a run between spaces that is dense once the punctuation around it is off: 32 characters or more of one alphabet, a letter and a digit, three fifths of the variety such a length could have |
| `Shapes.DenseKeyIsRefused` | src/persona_api/domain/secrets.py:203-229 | so such a key is refused inside any text, wrapped in any of the trimmed punctuation |
| `Identifiers.IdentifiersAreNeverTheReason` | src/persona_api/domain/secrets.py:157-229 | a text that names a lower-case UUID (section 4 of RFC 9562) or an id this service mints, wrapped in any of the trimmed punctuation and set off by spaces, is refused exactly when what stands before or after it would be: no pattern match crosses the id and it is never dense |
| `Identifiers.IdentifiersAreNeverRefused` | src/persona_api/domain/secrets.py:89-113 | so such an id alone, wrapped or not, is never refused |

## Left out

- Bytes on disk: the write-ahead log, `secure_delete`, checkpoints and the FTS5 `optimize` step; a row is destroyed when no table, index or log entry of the model holds it.
- The stemmer, the tokenizer's tables and bm25: words are runs of an abstract word class, the same for queries and documents, with an abstract stem; the ranks by which results are ordered are a parameter, not computed.
- Unicode case and space tables: a parameter with the facts listed above.
- Floating-point formatting: numbers are their spellings, as the encoder wrote them; NaN and infinities are one value that is never accepted.
- JSON whitespace and non-string object keys, which the encoder never writes and decoded values never hold; lone surrogates.
- Profile names: owners arrive with their profile already normalised; `default_persona` is not part of the preferences modelled.
- Event ids, and the text of the human-readable `detail` (its parts are kept, so it is seen to hold no value).
- Instants in the machine are integers; `Times.ColumnOrderIsTime` and `PageWalks.CursorSelectsWhatFollows` are why comparing stamp columns is comparing instants.
- Foreign cursors: pages follow cursors this service issued; `recent` reads the sort key of any other with `int`.
- Pages of no rows: a page shows at least one, as the API demands of every limit it passes on.
- Lists of pinned rows, schema summaries, counts and the identity block: single reads of rows the invariants already speak of.
- A failing COMMIT, and what happens to the process between two transactions of one call: the calls that make two say so.
- HTTP, authentication, the settings client and the migrator, except for the tables, cascades and triggers they set up.
- Isolation.OthersLeaveNoTrace: does not cover runs with sweeps, because a sweep's batch is shared by all accounts; nor the event log, whose trim is.
- PersonaStore.PersonaService.Export: the card and the two pages are read at one moment; the source reads them one after another, and a write between two of them shows in the later ones only.
- FieldStore.FieldStore.Search: takes the ranks as given, because `bm25` is floating-point arithmetic over the whole index.
- NoteStore.NoteStore.Search: takes the ranks as given, for the same reason.
