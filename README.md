# Cheapjack download lifecycle in Dafny

Cheapjack is a small Swift library for background downloads. Its engine has
two classes:

- `CheapjackFile` is one transfer record. It holds an identifier, a request,
  a `State` (seven cases; `paused` carries resume bytes), the previous state,
  two byte counters, an ordered list of listeners and a transport task.
  Assigning `state` copies the outgoing value to `lastState` and then
  notifies. The manager's delegate hears first, then each listener in order,
  its delegate before its closure. Assigning the written counter notifies
  progress; assigning the expected counter does not.
- `CheapjackManager` owns a dictionary from identifier to record. It routes
  commands:
  - `download`, and `resume`, `pause` and `cancel`, each by identifier and
    by record;
  - the `*All` variants;
  - `remove` by identifier and by state;
  - `pendingDownloads`.

  It also reacts to the transport's write-progress and finish callbacks.

The project models both classes in their own imperative form. The Dafny
classes `Cheapjack.CheapjackFile` and `Cheapjack.CheapjackManager` update
their fields in place. The notification fan-out and the bulk commands are
loops with invariants. Every call into an observer is appended to a ghost
`EventLog`, so each method states exactly which notifications it makes, and
in which order.

Each method is proved against a function on values from module `Lifecycle`:

- `Record` is a snapshot of one record.
- `Files` is the manager's map of snapshots.
- One function per command or callback (`Resumed`, `PauseRequested`,
  `PauseSettled`, `CancelRequested`, `DataWritten`, `Completed`,
  `KeepState`, `ResumeEach`, …) gives the new value.
- Another function per operation gives the notifications it makes
  (`StateEvents`, `WriteEvents`, `FinishEvents`, `EachEvents`, all built
  from `Notify.FanOut`).

Lemmas state what those functions promise.

Files:

- `wrappers.dfy`: `Option`.
- `file_state.dfy`: `State` and its equality, `int64`, `Progress`.
- `notify.dfy`: listeners, events and the fan-out order.
- `lifecycle.dfy`: record and collection transitions, with their lemmas.
- `cheapjack.dfy`: the two classes.

The transport is abstracted as follows:

- A `URLSessionDownloadTask` becomes a `DownloadTask` value. It records where
  the task starts from (the request or resume bytes), its description and
  its status.
- The pause completion closure becomes the method
  `CheapjackManager.DidProduceResumeData`.
- The transport callbacks receive the record's identifier directly. In the
  library it arrives as the task's description.
- Observers (delegates and closures) are opaque `ObserverId`s.

## Behaviour as written

The model follows the code. In these places the code does something a
reader of the library's description might not expect:

- `resume` keeps both byte counters; it does not reset them to zero (`Lifecycle.WorkedExample`).
- `download` replaces any record already stored under the same identifier (`Cheapjack.CheapjackManager.Download`).
- A write callback arriving after `cancel` moves the record from cancelled back to downloading (`Lifecycle.WriteAfterCancel`).
- The write callback assigns the written count before the expected count. The progress notification therefore reports the expected count from before the callback (`Lifecycle.FirstWriteReportsStaleTotal`).
- `remove(identifier)` only drops the key. It neither cancels the task nor notifies anyone.
- Transport errors are forwarded to the delegate, but no record ever moves to `failed`.
- A pause for a record without a task does nothing (`Lifecycle.PauseOutcome`).

## Model

| member | source | states |
|---|---|---|
| FileState.Same | Cheapjack/CheapjackFile.swift:26-45 | the library's `==` on states holds exactly when the two states are equal: same case, and for `paused` the same resume bytes |
| FileState.SamePaused | Cheapjack/CheapjackFile.swift:28-29 | two paused states are equal iff their resume bytes are equal; a paused state never equals a state of another case |
| FileState.Progress | Cheapjack/CheapjackFile.swift:92-98 | progress is 0 when the expected total is not positive, and otherwise the ratio with progress × expected = written |
| FileState.ProgressInUnitInterval | Cheapjack/CheapjackFile.swift:92-98 | with 0 ≤ written ≤ expected, progress lies in [0, 1], and it is 1 when everything expected has been written |
| Notify.FanOutOrder | Cheapjack/CheapjackFile.swift:165-181 | a notification calls the manager's delegate first, then listener i after every earlier listener and before every later one; each listener's delegate comes before its closure |
| Notify.FanOutShape | Cheapjack/CheapjackFile.swift:165-199 | a notification makes exactly one call per observer slot that handles its kind, the manager's delegate (if any) first, and every call reports the same change |
| Notify.ListenersEventsAppend | Cheapjack/CheapjackFile.swift:172-180 | notifying a concatenated listener list notifies the first list and then the second |
| Notify.ListenersEventsSize | Cheapjack/CheapjackFile.swift:172-180 | the listener loop makes one call per present delegate or matching closure, no more and no fewer |
| Notify.ListenersEventsReport | Cheapjack/CheapjackFile.swift:172-180 | every call the listener loop makes reports the change being notified |
| Notify.FanOutAddListener | Cheapjack/CheapjackFile.swift:147-149 | after a listener is appended, every notification makes the old calls and then the new listener's calls |
| Lifecycle.OneStepHistory | Cheapjack/CheapjackFile.swift:104-112 | assigning `state` sets it to the new value and `lastState` to the old one, and changes nothing else |
| Lifecycle.InitialRecord | Cheapjack/CheapjackFile.swift:128-137 | a fresh record is unknown with last state unknown, both counters 0, no task, and the supplied listeners or none |
| Lifecycle.ResumeStartsFromResumeData | Cheapjack/CheapjackManager.swift:109-124 | resume makes the record waiting and keeps its previous state as `lastState`; counters, listeners and identifier are kept; a running task described by the identifier is started, from the resume bytes exactly when the record was paused and from the request otherwise |
| Lifecycle.DownloadedRecord | Cheapjack/CheapjackManager.swift:56-63 | `download` installs a new record with the one listener and the given user info. The record is waiting with last state unknown and zero counters, fetching from the request |
| Lifecycle.PauseOutcome | Cheapjack/CheapjackManager.swift:126-137 | a pause settles to `paused(bytes)` when the transport produced bytes and to cancelled (never paused) when it did not; the request itself only changes the task, and changes nothing without one |
| Lifecycle.CancelFromAnyState | Cheapjack/CheapjackManager.swift:139-142 | cancel makes any record cancelled and records the prior state; everything but the state, its history and the task (both counters, listeners, identifier, request, user info) is kept |
| Lifecycle.WriteOutcome | Cheapjack/CheapjackManager.swift:206-215 | the write callback leaves the record downloading with both reported totals; `lastState` moves and the state notification is made exactly when the record was not already downloading; the log then gains exactly the progress notification with the new written count and the expected count from before the callback |
| Lifecycle.WriteAfterCancel | Cheapjack/CheapjackManager.swift:206-215 | a write callback after cancel moves the record from cancelled to downloading |
| Lifecycle.FirstWriteReportsStaleTotal | Cheapjack/CheapjackManager.swift:206-215 | for every written and expected count: when a record that is not downloading and whose expected total is still 0 gets a write callback, the log gains its state notification and then a progress notification with progress 0 and expected 0, though the record ends with the reported total |
| Lifecycle.FinishOutcome | Cheapjack/CheapjackManager.swift:191-204 | the finish callback finishes the record and keeps it, or drops exactly its key when `deleteFileAfterComplete`; all other records are untouched |
| Lifecycle.KeepStateExact | Cheapjack/CheapjackManager.swift:177-185 | `remove(filesWithState)` keeps exactly the records in that state, unchanged; applying it twice equals applying it once; records stay keyed by their identifiers |
| Lifecycle.PendingPartition | Cheapjack/CheapjackManager.swift:65-69 | every record is exactly one of pending, finished or cancelled: the three counts add up to the number of records |
| Lifecycle.PendingStates | Cheapjack/CheapjackManager.swift:65-69 | a state is pending exactly when it is neither finished nor cancelled, so paused, failed, unknown, waiting and downloading all count |
| Lifecycle.CancelEachCancelsAll | Cheapjack/CheapjackManager.swift:163-167 | after `cancelAll` the same keys remain, every record is cancelled, and nothing is pending |
| Lifecycle.ResumeEachWaitsAll | Cheapjack/CheapjackManager.swift:151-155 | after `resumeAll` the same keys remain and every record is waiting, hence pending |
| Lifecycle.PauseEachKeepsStates | Cheapjack/CheapjackManager.swift:157-161 | `pauseAll` keeps every key and every record's state, so the cancelled set is unchanged; each record differs from before at most in its task |
| Lifecycle.WorkedExample | Cheapjack/CheapjackManager.swift:109-137 | a transfer written to 25%, paused with resume bytes, then resumed, keeps its counters and restarts from those bytes; it then finishes with both counters equal |
| Cheapjack.CheapjackFile.constructor | Cheapjack/CheapjackFile.swift:128-137 | the initializer builds exactly `Initial`: unknown, no history, no bytes, the given listeners or none, no manager |
| Cheapjack.CheapjackFile.FromUrl | Cheapjack/CheapjackFile.swift:139-142 | the URL initializer is the request initializer on a request for that URL |
| Cheapjack.CheapjackFile.AddListener | Cheapjack/CheapjackFile.swift:147-149 | appends one listener and keeps the existing ones in order |
| Cheapjack.CheapjackFile.SetState | Cheapjack/CheapjackFile.swift:151-153 | the record becomes `WithState(old, to)` (state := to, lastState := old state, nothing else), and exactly one state notification (old, to) is logged |
| Cheapjack.CheapjackFile.SetTotalBytesWritten | Cheapjack/CheapjackFile.swift:155-157 | sets the written count only, then logs exactly the progress fan-out computed from the new written count and the current expected count |
| Cheapjack.CheapjackFile.SetTotalBytesExpectedToWrite | Cheapjack/CheapjackFile.swift:159-161 | sets the expected count only; nothing is logged |
| Cheapjack.CheapjackFile.NotifyChangeStateListeners | Cheapjack/CheapjackFile.swift:165-181 | logs the fan-out of the (lastState, state) change: manager delegate if attached, then each listener's delegate and state closure in order |
| Cheapjack.CheapjackFile.NotifyUpdateProgressListeners | Cheapjack/CheapjackFile.swift:183-199 | logs the fan-out of the progress change with the current counters |
| Cheapjack.CheapjackFile.FanOutTo | Cheapjack/CheapjackFile.swift:165-181 | the manager's delegate call and then the loop over listeners append exactly `FanOut` for the change, in listener order |
| Cheapjack.CheapjackFile.NotifyListener | Cheapjack/CheapjackFile.swift:173-179 | one listener's turn logs its delegate's call and then its closure for this kind of change, each only when present |
| Cheapjack.SameFileIsSameEntry | Cheapjack/CheapjackFile.swift:18-20 | within one manager, two stored records are equal by identifier exactly when they are the same record |
| Cheapjack.CheapjackManager.constructor | Cheapjack/CheapjackManager.swift:41-48 | a new manager has no records, no delegate, no finish closure and `deleteFileAfterComplete` false |
| Cheapjack.CheapjackManager.Download | Cheapjack/CheapjackManager.swift:56-63 | stores a fresh record under the identifier, replacing any other, whose value is `Downloaded(...)`; logs the one unknown→waiting notification |
| Cheapjack.CheapjackManager.DownloadUrl | Cheapjack/CheapjackManager.swift:51-54 | the URL overload is `Download` on a request for that URL |
| Cheapjack.CheapjackManager.PendingDownloads | Cheapjack/CheapjackManager.swift:65-69 | counts the records neither finished nor cancelled; with the finished and cancelled counts it adds up to the number of records |
| Cheapjack.CheapjackManager.Resume | Cheapjack/CheapjackManager.swift:78-84 | returns whether the identifier is known; if not, nothing changes and nothing is logged; if so, that record (only) is resumed, with its state notification |
| Cheapjack.CheapjackManager.Pause | Cheapjack/CheapjackManager.swift:86-92 | returns whether the identifier is known; if not, nothing changes; if so, that record's task (only) is asked for resume bytes |
| Cheapjack.CheapjackManager.Cancel | Cheapjack/CheapjackManager.swift:94-100 | returns whether the identifier is known; if not, nothing changes and nothing is logged; if so, that record (only) is cancelled, with its state notification |
| Cheapjack.CheapjackManager.ResumeFile | Cheapjack/CheapjackManager.swift:109-124 | links the record to this manager, stores it under its identifier, makes it `Resumed(old)`, changes no other record, and logs one state notification to waiting |
| Cheapjack.CheapjackManager.PauseFile | Cheapjack/CheapjackManager.swift:126-127 | only the record's task changes, to a request for resume bytes; no notification yet |
| Cheapjack.CheapjackManager.DidProduceResumeData | Cheapjack/CheapjackManager.swift:127-136 | the pause completion makes the record `paused(bytes)` or cancelled, per `PauseSettled`, with its one state notification |
| Cheapjack.CheapjackManager.CancelFile | Cheapjack/CheapjackManager.swift:139-142 | the record becomes `CancelRequested(old)` immediately, with one notification to cancelled |
| Cheapjack.CheapjackManager.ResumeAll | Cheapjack/CheapjackManager.swift:151-155 | the collection becomes `ResumeEach(old)`; the log gains one waiting notification per record, in some iteration order that lists every key once |
| Cheapjack.CheapjackManager.PauseAll | Cheapjack/CheapjackManager.swift:157-161 | the collection becomes `PauseEach(old)` |
| Cheapjack.CheapjackManager.CancelAll | Cheapjack/CheapjackManager.swift:163-167 | the collection becomes `CancelEach(old)`; the log gains one cancelled notification per record, in some iteration order that lists every key once |
| Cheapjack.CheapjackManager.Remove | Cheapjack/CheapjackManager.swift:173-175 | drops exactly that key; every other entry and every record are untouched |
| Cheapjack.CheapjackManager.RemoveFilesWithState | Cheapjack/CheapjackManager.swift:177-185 | keeps exactly the entries whose state equals the argument, with unchanged values; the collection becomes `KeepState(old, state)` |
| Cheapjack.CheapjackManager.FilesWithState | Cheapjack/CheapjackManager.swift:178-183 | the loop over the copy leaves exactly the keys whose record is in the given state, mapped to the same records |
| Cheapjack.CheapjackManager.DidWriteData | Cheapjack/CheapjackManager.swift:206-215 | unknown identifier: nothing changes and nothing is logged; known: that record becomes `DataWritten(old, written, expected)` and the log gains `WriteEvents` (state notification if not downloading, then progress with the old expected count) |
| Cheapjack.CheapjackManager.NotifyFinished | Cheapjack/CheapjackManager.swift:193-197 | a stored record becomes `Completed(old)` (finished, previous state kept); the log gains its state notification, then the manager delegate's finish call, then the finish closure's |
| Cheapjack.CheapjackManager.DidFinishDownloadingTo | Cheapjack/CheapjackManager.swift:191-204 | unknown identifier: nothing changes and nothing is logged; known: the same record objects stay stored, minus exactly that key when `deleteFileAfterComplete`; the record ends finished, the collection's value becomes `FinishIn(old, id, deleteFileAfterComplete)`, and the log gains the state notification, then the delegate's and the finish closure's calls |

## Left out

- The URLSession machinery is not modelled: the background session and its configuration, task creation, `resume()` and `cancel()` on tasks. A task is the `DownloadTask` value, whose status records what the library asked of it.
- Asynchrony is not modelled. The pause completion closure becomes an ordinary call of `DidProduceResumeData`, made whenever the caller chooses. The session's delegate queue and the ordering it imposes are not modelled.
- Cheapjack.CheapjackManager.DidProduceResumeData: does not require that a pause was requested or that the record is still stored, because the closure does not check either.
- The error callbacks (`didCompleteWithError`, `didBecomeInvalidWithError`) are not modelled. They only print and forward the error to the delegate, and change no record.
- `didResumeAtOffset` (only prints) and `urlSessionDidFinishEvents` (empty body) are not modelled.
- FileState.Progress: computed exactly over the reals, not in `Double`, so rounding is not modelled.
- Observers do not call back into the manager or the record during a notification. In Swift, delegates and closures run synchronously, and the notification loops read `lastState`, `state` and the counters again for every call. So a re-entrant `cancel`, `resume` or `remove` made by an observer changes the pair and the counters that later listeners receive, and can cause further state notifications within one `setState`. Here the change is computed once per notification, so the exact logs stated by `SetState`, `SetTotalBytesWritten` and `Notify.FanOutOrder` hold only for observers that do not re-enter.
- A task replaced by `resume` or `download` is neither cancelled nor tracked. In Swift it keeps running and its callbacks still carry the identifier. Here a record holds only its newest task. Callbacks from the old task are covered only in that the write and finish callbacks may be called for any identifier at any time.
- Weak references are not modelled. A record's link to its manager is a plain nullable reference that is never cleared. Observers are opaque identifiers, so one that has gone away is not modelled.
- `userInfo` values are opaque handles passed through unchanged.
- The `sharedManager` singleton is not modelled. Managers are built explicitly, and each is given the ghost log that records its notifications.
- `print` calls are left out.
- The example application (`DownloadsViewController.swift`, UIKit presentation) is not part of this model.
- Force-unwraps are not modelled: `request.url!` (a `Request` always has a URL here) and `taskDescription!` (callbacks receive the identifier).
- The order of dictionary iteration is not modelled. `ResumeAll` and `CancelAll` return, as a ghost result, the order they used. They promise only that it lists every key exactly once.
- Cheapjack.CheapjackManager.Valid: every manager method requires it. Every stored record must sit under its own identifier and link back to this manager. This holds when `files` is changed only through the manager and a record is resumed by one manager only. Assigning `files` from outside, or resuming one record through two managers, is not modelled.
- `CheapjackFile.identifier`, `url` and `request` are assignable public properties in Swift. Here they are constants. `Cheapjack.CheapjackManager.Valid` and `Cheapjack.SameFileIsSameEntry` rely on a stored record keeping its identifier. `resume(file)` is modelled reading the request the record was created with. Reassigning any of these three after creation is not modelled.
- `CheapjackFile.Listener` is a reference class with assignable slots in Swift. Here it is an immutable value copied into the record. A caller that reassigns a registered listener's delegate or closures changes later notifications in Swift. That is not modelled.
- Swift compares `String` identifiers, and looks up dictionary keys, by Unicode canonical equivalence. Here `Identifier` is a sequence of characters compared exactly, so two canonically equivalent but differently encoded identifiers are distinct keys.
- The byte counters are `int64` values stored as given. Nothing adds them up, so no overflow arises.
- Persistence and file relocation are not modelled; the library has no such code.
