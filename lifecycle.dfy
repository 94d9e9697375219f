/**
 * The download lifecycle as values: a snapshot of one transfer record, the
 * transition each command or transport callback applies to it, the calls it
 * makes into observers, and the same at the level of the manager's whole
 * identifier-to-record map. The classes in module Cheapjack are proved to
 * follow these functions; the lemmas here state what the functions promise.
 */
module Lifecycle {
  import opened Wrappers
  import opened FileState
  import opened Notify

  /** An opaque `AnyObject` a caller stores in `userInfo`. */
  datatype UserValue = UserValue(handle: nat)

  type UserInfo = map<string, UserValue>

  /** Where a transport task starts from. */
  datatype TaskSource = FromRequest(request: Request) | FromResumeData(data: ResumeData)

  /** The lifecycle of a transport task, as far as the library drives it. */
  datatype TaskStatus = Suspended | Running | Canceling | CancelingWithResumeData

  /** A `URLSessionDownloadTask`; `taskDescription` carries the record's identifier. */
  datatype DownloadTask = DownloadTask(source: TaskSource, taskDescription: Option<Identifier>, status: TaskStatus)

  /** Everything about a `CheapjackFile` except its weak link to a manager. */
  datatype Record = Record(
    identifier: Identifier,
    request: Request,
    state: State,
    lastState: State,
    totalBytesWritten: int64,
    totalBytesExpectedToWrite: int64,
    listeners: seq<Listener>,
    downloadTask: Option<DownloadTask>,
    userInfo: UserInfo)

  /** A record as the initializer builds it. */
  function Initial(identifier: Identifier, request: Request, listeners: Option<seq<Listener>>): Record {
    Record(identifier, request, Unknown, Unknown, 0, 0, listeners.GetOr([]), None, map[])
  }

  /** An assignment to `state`: the outgoing value moves to `lastState`. */
  function WithState(r: Record, to: State): Record {
    r.(state := to, lastState := r.state)
  }

  // ---------------------------------------------------------------------------
  // Transitions of one record

  /** The task `resume` starts: from the resume bytes of a paused record, else from the request. */
  function StartedTask(r: Record): DownloadTask {
    var source := match r.state
      case Paused(data) => FromResumeData(data)
      case _ => FromRequest(r.request);
    DownloadTask(source, Some(r.identifier), Running)
  }

  /** `resume(file)`: waiting, with a fresh running task; the counters are kept. */
  function Resumed(r: Record): Record {
    WithState(r, Waiting).(downloadTask := Some(StartedTask(r)))
  }

  /** `pause(file)`: the task, if any, is asked to stop and produce resume bytes. */
  function PauseRequested(r: Record): Record {
    match r.downloadTask
    case None => r
    case Some(t) => r.(downloadTask := Some(t.(status := CancelingWithResumeData)))
  }

  /** The transport's answer to a pause: resume bytes, or none. */
  function PauseSettled(r: Record, resumeData: Option<ResumeData>): Record {
    match resumeData
    case Some(data) => WithState(r, Paused(data))
    case None => WithState(r, Cancelled)
  }

  /** `cancel(file)`: cancelled at once, and the task, if any, is told to stop. */
  function CancelRequested(r: Record): Record {
    var t := match r.downloadTask
      case None => None
      case Some(t) => Some(t.(status := Canceling));
    WithState(r, Cancelled).(downloadTask := t)
  }

  /** The write-progress callback: downloading, with both totals as reported. */
  function DataWritten(r: Record, written: int64, expected: int64): Record {
    var s := if Same(r.state, Downloading) then r else WithState(r, Downloading);
    s.(totalBytesWritten := written, totalBytesExpectedToWrite := expected)
  }

  /** The finish callback. */
  function Completed(r: Record): Record {
    WithState(r, Finished)
  }

  /** `download(...)`: a fresh record with one listener, then `resume`. */
  function Downloaded(identifier: Identifier, request: Request, userInfo: Option<UserInfo>, listener: Listener): Record {
    var r := Initial(identifier, request, Some([listener]));
    Resumed(match userInfo case Some(ui) => r.(userInfo := ui) case None => r)
  }

  // ---------------------------------------------------------------------------
  // Calls into observers

  /** The notification of a move of `r` to `to`. */
  function StateEvents(managerDelegate: Option<ObserverId>, r: Record, to: State): seq<Event> {
    FanOut(managerDelegate, r.identifier, r.listeners, StateChanged(r.state, to))
  }

  /**
   * The calls of the write-progress callback: a state notification unless
   * the record was already downloading, then one progress notification. The
   * written count is assigned before the expected count, so the progress
   * notification still sees the expected count from before the callback.
   */
  function WriteEvents(managerDelegate: Option<ObserverId>, r: Record, written: int64, expected: int64): seq<Event> {
    var before := r.totalBytesExpectedToWrite;
    (if Same(r.state, Downloading) then [] else StateEvents(managerDelegate, r, Downloading))
    + FanOut(managerDelegate, r.identifier, r.listeners, ProgressUpdated(Progress(written, before), written, before))
  }

  /** A log that gained the state notification, if any, and then the progress notification holds `WriteEvents`. */
  lemma WriteEventsLogged(log0: seq<Event>, log1: seq<Event>, log2: seq<Event>, managerDelegate: Option<ObserverId>,
                          r: Record, written: int64, expected: int64)
    requires log1 == log0 + (if Same(r.state, Downloading) then [] else StateEvents(managerDelegate, r, Downloading))
    requires log2 == log1 + FanOut(managerDelegate, r.identifier, r.listeners,
                                   ProgressUpdated(Progress(written, r.totalBytesExpectedToWrite), written, r.totalBytesExpectedToWrite))
    ensures log2 == log0 + WriteEvents(managerDelegate, r, written, expected)
  {
  }

  /** The calls of the finish callback: state notification, manager delegate, finish closure. */
  function FinishEvents(managerDelegate: Option<ObserverId>, finishBlock: Option<ObserverId>, r: Record, location: Url): seq<Event> {
    StateEvents(managerDelegate, r, Finished)
    + (match managerDelegate case Some(d) => [ManagerDidFinishDownloading(d, r.identifier, location)] case None => [])
    + (match finishBlock case Some(b) => [FinishBlockCalled(b, r.identifier, location)] case None => [])
  }

  // ---------------------------------------------------------------------------
  // The manager's collection

  type Files = map<Identifier, Record>

  /** Every record is stored under its own identifier. */
  ghost predicate Keyed(v: Files) {
    forall id | id in v :: v[id].identifier == id
  }

  /** `remove(filesWithState)`: keep the records whose state equals `s`, drop the rest. */
  function KeepState(v: Files, s: State): Files {
    map id | id in v && Same(v[id].state, s) :: v[id]
  }

  /** A record counted by `pendingDownloads`: neither finished nor cancelled. */
  predicate IsPending(s: State) {
    !Same(s, Finished) && !Same(s, Cancelled)
  }

  function PendingIds(v: Files): set<Identifier> {
    set id | id in v && IsPending(v[id].state)
  }

  function StateIds(v: Files, s: State): set<Identifier> {
    set id | id in v && v[id].state == s
  }

  function ResumeEach(v: Files): Files {
    map id | id in v :: Resumed(v[id])
  }

  function PauseEach(v: Files): Files {
    map id | id in v :: PauseRequested(v[id])
  }

  function CancelEach(v: Files): Files {
    map id | id in v :: CancelRequested(v[id])
  }

  /** The finish callback on the collection: finished, then dropped when so configured. */
  function FinishIn(v: Files, id: Identifier, deleteFileAfterComplete: bool): Files
    requires id in v
  {
    if deleteFileAfterComplete then v - {id} else v[id := Completed(v[id])]
  }

  /** `FinishIn` in two steps: finish the record, then drop its key when so configured. */
  lemma FinishInSteps(v: Files, id: Identifier, finished: Files)
    requires id in v && finished == v[id := Completed(v[id])]
    ensures FinishIn(v, id, false) == finished && FinishIn(v, id, true) == finished - {id}
  {
    assert finished - {id} == v - {id};
  }

  /** `order` lists every key of `keys` exactly once: an iteration order of a dictionary. */
  ghost predicate Enumerates(order: seq<Identifier>, keys: set<Identifier>) {
    && (forall i, j | 0 <= i < j < |order| :: order[i] != order[j])
    && keys == set i | 0 <= i < |order| :: order[i]
  }

  /** The notifications of moving every record listed in `order`, in that order, to `to`. */
  function EachEvents(managerDelegate: Option<ObserverId>, v: Files, order: seq<Identifier>, to: State): seq<Event>
    decreases |order|
  {
    if order == [] then []
    else
      var id := order[|order| - 1];
      EachEvents(managerDelegate, v, order[..|order| - 1], to)
      + (if id in v then StateEvents(managerDelegate, v[id], to) else [])
  }

  /** The commands the manager sends to every record at once. */
  datatype Bulk = Resuming | Pausing | Cancelling

  /** What a bulk command does to one record. */
  function Perform(c: Bulk, r: Record): Record {
    match c
    case Resuming => Resumed(r)
    case Pausing => PauseRequested(r)
    case Cancelling => CancelRequested(r)
  }

  /** The collection part-way through a bulk command: `c` performed on the records in `done`. */
  function Applied(v: Files, done: set<Identifier>, c: Bulk): Files {
    map id | id in v :: if id in done then Perform(c, v[id]) else v[id]
  }

  /** A bulk command before its first record. */
  lemma AppliedNone(v: Files, c: Bulk)
    ensures Applied(v, {}, c) == v && Enumerates([], {})
  {
  }

  /** A bulk command after its last record is the matching collection function. */
  lemma AppliedAll(v: Files)
    ensures Applied(v, v.Keys, Resuming) == ResumeEach(v)
    ensures Applied(v, v.Keys, Pausing) == PauseEach(v)
    ensures Applied(v, v.Keys, Cancelling) == CancelEach(v)
  {
  }

  /** One more record through a bulk command. */
  lemma AppliedStep(v: Files, done: set<Identifier>, c: Bulk, id: Identifier)
    requires id in v && id !in done
    ensures Applied(v, done, c)[id := Perform(c, v[id])] == Applied(v, done + {id}, c)
  {
  }

  /** A loop over `keys` visits `id`, one of those still to visit. */
  lemma VisitOne(keys: set<Identifier>, todo: set<Identifier>, done: set<Identifier>, id: Identifier)
    requires done <= keys && todo == keys - done && id in todo
    ensures id in keys && id !in done && done + {id} <= keys && todo - {id} == keys - (done + {id})
  {
  }

  /** A loop over `keys` with nothing left to visit has visited them all. */
  lemma VisitedAll(keys: set<Identifier>, todo: set<Identifier>, done: set<Identifier>)
    requires done <= keys && todo == keys - done && todo == {}
    ensures done == keys
  {
    forall id | id in keys ensures id in done {
      assert id !in todo;
    }
  }

  /** One more key at the end of an iteration order. */
  lemma EnumeratesSnoc(order: seq<Identifier>, done: set<Identifier>, id: Identifier)
    requires Enumerates(order, done) && id !in done
    ensures Enumerates(order + [id], done + {id})
  {
    var order' := order + [id];
    forall i, j | 0 <= i < j < |order'| ensures order'[i] != order'[j] {
      if j == |order| {
        assert order[i] in done;
      }
    }
    assert (set i | 0 <= i < |order'| :: order'[i]) == done + {id} by {
      forall x | x in done + {id} ensures x in set i | 0 <= i < |order'| :: order'[i] {
        if x == id {
          assert order'[|order|] == x;
        } else {
          var i :| 0 <= i < |order| && order[i] == x;
          assert order'[i] == x;
        }
      }
    }
  }

  /** Notifying one more record at the end of an iteration order. */
  lemma EachEventsSnoc(managerDelegate: Option<ObserverId>, v: Files, order: seq<Identifier>, id: Identifier, to: State)
    requires id in v
    ensures EachEvents(managerDelegate, v, order + [id], to) == EachEvents(managerDelegate, v, order, to) + StateEvents(managerDelegate, v[id], to)
  {
    assert (order + [id])[..|order|] == order;
  }

  /** A log that held `EachEvents` for `order` and then gained the events of `id` holds them for `order + [id]`. */
  lemma EachEventsExtend(log0: seq<Event>, before: seq<Event>, after: seq<Event>, managerDelegate: Option<ObserverId>,
                         v: Files, order: seq<Identifier>, id: Identifier, to: State)
    requires id in v
    requires before == log0 + EachEvents(managerDelegate, v, order, to)
    requires after == before + StateEvents(managerDelegate, v[id], to)
    ensures after == log0 + EachEvents(managerDelegate, v, order + [id], to)
  {
    EachEventsSnoc(managerDelegate, v, order, id, to);
  }

  // ---------------------------------------------------------------------------
  // What the transitions promise

  /** Every assignment to `state` keeps exactly one step of history. */
  lemma OneStepHistory(r: Record, to: State)
    ensures WithState(r, to).state == to && WithState(r, to).lastState == r.state
    ensures WithState(r, to).(state := r.state, lastState := r.lastState) == r
  {
  }

  /** A fresh record is unknown with no history, no bytes and the given listeners or none. */
  lemma InitialRecord(identifier: Identifier, request: Request, listeners: Option<seq<Listener>>)
    ensures var r := Initial(identifier, request, listeners);
      && r.state == Unknown && r.lastState == Unknown
      && r.totalBytesWritten == 0 && r.totalBytesExpectedToWrite == 0
      && r.listeners == (if listeners.Some? then listeners.value else [])
      && r.downloadTask == None
  {
  }

  /**
   * `resume` waits, remembers the prior state and keeps the counters and
   * listeners; its task starts from resume bytes exactly when the record was
   * paused, and from those bytes.
   */
  lemma ResumeStartsFromResumeData(r: Record)
    ensures var r' := Resumed(r);
      && r'.state == Waiting && r'.lastState == r.state
      && r'.totalBytesWritten == r.totalBytesWritten
      && r'.totalBytesExpectedToWrite == r.totalBytesExpectedToWrite
      && r'.listeners == r.listeners && r'.identifier == r.identifier
      && r'.downloadTask.Some? && r'.downloadTask.value.status == Running
      && r'.downloadTask.value.taskDescription == Some(r.identifier)
      && (r'.downloadTask.value.source.FromResumeData? <==> r.state.Paused?)
      && (r.state.Paused? ==> r'.downloadTask.value.source == FromResumeData(r.state.data))
      && (!r.state.Paused? ==> r'.downloadTask.value.source == FromRequest(r.request))
  {
  }

  /**
   * `download` always installs a brand-new record with one listener: it ends
   * waiting with no history and no bytes, fetching from the request.
   */
  lemma DownloadedRecord(identifier: Identifier, request: Request, userInfo: Option<UserInfo>, listener: Listener)
    ensures var r := Downloaded(identifier, request, userInfo, listener);
      && r.identifier == identifier && r.request == request
      && r.state == Waiting && r.lastState == Unknown
      && r.totalBytesWritten == 0 && r.totalBytesExpectedToWrite == 0
      && r.listeners == [listener]
      && r.downloadTask == Some(DownloadTask(FromRequest(request), Some(identifier), Running))
      && r.userInfo == (if userInfo.Some? then userInfo.value else map[])
  {
  }

  /**
   * A pause ends paused with the bytes the transport produced, or cancelled
   * when it produced none, never paused then. A pause request itself
   * changes only the task, and changes nothing when there is no task.
   */
  lemma PauseOutcome(r: Record, resumeData: Option<ResumeData>)
    ensures resumeData.Some? ==> PauseSettled(r, resumeData).state == Paused(resumeData.value)
    ensures resumeData.None? ==> PauseSettled(r, resumeData).state == Cancelled
    ensures !PauseSettled(r, None).state.Paused?
    ensures PauseSettled(r, resumeData).lastState == r.state
    ensures PauseRequested(r).(downloadTask := r.downloadTask) == r
    ensures r.downloadTask.None? ==> PauseRequested(r) == r
  {
  }

  /** `cancel` cancels whatever the prior state, and changes nothing but the state, its history and the task. */
  lemma CancelFromAnyState(r: Record)
    ensures CancelRequested(r).state == Cancelled && CancelRequested(r).lastState == r.state
    ensures CancelRequested(r).(state := r.state, lastState := r.lastState, downloadTask := r.downloadTask) == r
  {
  }

  /**
   * The write callback leaves the record downloading with the reported
   * totals; the state notification is made exactly when it was not already
   * downloading, and `lastState` moves only then. The progress notification
   * follows it, with the new written count and the expected count from
   * before the callback.
   */
  lemma WriteOutcome(managerDelegate: Option<ObserverId>, r: Record, written: int64, expected: int64)
    ensures var r' := DataWritten(r, written, expected);
      && r'.state == Downloading
      && r'.totalBytesWritten == written && r'.totalBytesExpectedToWrite == expected
      && r'.lastState == (if r.state == Downloading then r.lastState else r.state)
    ensures r.state == Downloading ==>
      WriteEvents(managerDelegate, r, written, expected)
        == FanOut(managerDelegate, r.identifier, r.listeners,
                  ProgressUpdated(Progress(written, r.totalBytesExpectedToWrite), written, r.totalBytesExpectedToWrite))
    ensures r.state != Downloading ==>
      WriteEvents(managerDelegate, r, written, expected)
        == StateEvents(managerDelegate, r, Downloading)
         + FanOut(managerDelegate, r.identifier, r.listeners,
                  ProgressUpdated(Progress(written, r.totalBytesExpectedToWrite), written, r.totalBytesExpectedToWrite))
  {
  }

  /**
   * A write callback that arrives after `cancel` is not ignored: the record
   * is moved from cancelled back to downloading.
   */
  lemma WriteAfterCancel(r: Record, written: int64, expected: int64)
    ensures DataWritten(CancelRequested(r), written, expected).state == Downloading
    ensures DataWritten(CancelRequested(r), written, expected).lastState == Cancelled
  {
  }

  /**
   * The first write callback of a transfer whose total is not yet known
   * notifies a progress of 0 and an expected total of 0, although the
   * record ends with the reported total: the progress notification fires
   * between the two counter assignments.
   */
  lemma FirstWriteReportsStaleTotal(managerDelegate: Option<ObserverId>, r: Record, written: int64, expected: int64)
    requires r.state != Downloading && r.totalBytesExpectedToWrite == 0
    ensures WriteEvents(managerDelegate, r, written, expected)
         == StateEvents(managerDelegate, r, Downloading)
          + FanOut(managerDelegate, r.identifier, r.listeners, ProgressUpdated(0.0, written, 0))
    ensures DataWritten(r, written, expected).totalBytesExpectedToWrite == expected
  {
  }

  /**
   * The finish callback finishes the record and keeps it, or drops its key
   * when `deleteFileAfterComplete` is set; every other record is untouched.
   */
  lemma FinishOutcome(v: Files, id: Identifier, deleteFileAfterComplete: bool)
    requires id in v
    ensures FinishIn(v, id, deleteFileAfterComplete).Keys == if deleteFileAfterComplete then v.Keys - {id} else v.Keys
    ensures !deleteFileAfterComplete ==>
      FinishIn(v, id, false)[id].state == Finished && FinishIn(v, id, false)[id].lastState == v[id].state
    ensures forall k | k in v && k != id :: FinishIn(v, id, deleteFileAfterComplete)[k] == v[k]
  {
  }

  /** `remove(filesWithState)` keeps exactly the records in state `s`, unchanged, and is idempotent. */
  lemma KeepStateExact(v: Files, s: State)
    ensures forall id :: id in KeepState(v, s) <==> id in v && v[id].state == s
    ensures forall id | id in KeepState(v, s) :: KeepState(v, s)[id] == v[id]
    ensures KeepState(KeepState(v, s), s) == KeepState(v, s)
    ensures Keyed(v) ==> Keyed(KeepState(v, s))
  {
  }

  /**
   * Every record is pending, finished or cancelled, and exactly one of
   * them: `pendingDownloads` counts all but the finished and cancelled ones.
   */
  lemma PendingPartition(v: Files)
    ensures |PendingIds(v)| + |StateIds(v, Finished)| + |StateIds(v, Cancelled)| == |v|
  {
    var p, f, c := PendingIds(v), StateIds(v, Finished), StateIds(v, Cancelled);
    assert p !! f && p !! c && f !! c;
    assert p + f + c == v.Keys;
    assert |p + f| == |p| + |f|;
    assert |(p + f) + c| == |p + f| + |c|;
  }

  /** Paused, failed, unknown, waiting and downloading records all count as pending. */
  lemma PendingStates(s: State)
    ensures IsPending(s) <==> !(s == Finished || s == Cancelled)
  {
  }

  /** After `cancelAll` every record is cancelled and nothing is pending. */
  lemma CancelEachCancelsAll(v: Files)
    ensures CancelEach(v).Keys == v.Keys
    ensures forall id | id in CancelEach(v) :: CancelEach(v)[id].state == Cancelled
    ensures PendingIds(CancelEach(v)) == {}
  {
  }

  /** After `resumeAll` every record is waiting, hence pending. */
  lemma ResumeEachWaitsAll(v: Files)
    ensures ResumeEach(v).Keys == v.Keys
    ensures forall id | id in ResumeEach(v) :: ResumeEach(v)[id].state == Waiting
    ensures PendingIds(ResumeEach(v)) == v.Keys
  {
  }

  /** `pauseAll` changes no state: it only asks each task to stop. */
  lemma PauseEachKeepsStates(v: Files)
    ensures PauseEach(v).Keys == v.Keys
    ensures forall id | id in PauseEach(v) :: PauseEach(v)[id].state == v[id].state
    ensures StateIds(PauseEach(v), Cancelled) == StateIds(v, Cancelled)
    ensures forall id | id in v :: PauseEach(v)[id].(downloadTask := v[id].downloadTask) == v[id]
  {
  }

  /**
   * One transfer from start to finish: a quarter written, paused with
   * resume bytes, resumed, completed. The resumed record keeps its byte
   * counters rather than starting again from zero, and its task restarts
   * from the resume bytes.
   */
  lemma WorkedExample(request: Request, listener: Listener)
    ensures var r0 := Downloaded("A", request, None, listener);
      var r1 := DataWritten(r0, 250, 1000);
      var r2 := PauseSettled(PauseRequested(r1), Some([1, 2, 3]));
      var r3 := Resumed(r2);
      var r4 := Completed(DataWritten(r3, 1000, 1000));
      && r1.state == Downloading && Progress(r1.totalBytesWritten, r1.totalBytesExpectedToWrite) == 0.25
      && r2.state == Paused([1, 2, 3])
      && r3.state == Waiting && r3.totalBytesWritten == 250 && r3.totalBytesExpectedToWrite == 1000
      && r3.downloadTask.value.source == FromResumeData([1, 2, 3])
      && r4.state == Finished && r4.totalBytesWritten == r4.totalBytesExpectedToWrite == 1000
  {
  }
}
