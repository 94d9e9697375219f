/**
 * The two classes of the library: `CheapjackFile`, a transfer record whose
 * fields change in place and which notifies its observers, and
 * `CheapjackManager`, which owns the records by identifier, routes commands
 * to them and reacts to the transport's callbacks. Each method is proved to
 * follow the matching function of module Lifecycle. Calls into observers
 * are appended to a ghost `EventLog`.
 */
module Cheapjack {
  import opened Wrappers
  import opened FileState
  import opened Notify
  import opened Lifecycle

  /** The outside world as seen through notifications: every observer call, in order. */
  class EventLog {
    ghost var events: seq<Event>

    constructor()
      ensures events == []
    {
      events := [];
    }
  }

  class CheapjackFile {
    /** Weak link to the manager that last resumed this record. */
    var manager: CheapjackManager?
    const identifier: Identifier
    const url: Url
    const request: Request
    var userInfo: UserInfo
    var lastState: State
    var state: State
    var totalBytesExpectedToWrite: int64
    var totalBytesWritten: int64
    var listeners: seq<Listener>
    var downloadTask: Option<DownloadTask>

    /** The record's value, everything but the manager link. */
    ghost function Snapshot(): Record
      reads this
    {
      Record(identifier, request, state, lastState, totalBytesWritten, totalBytesExpectedToWrite,
             listeners, downloadTask, userInfo)
    }

    /** The manager delegate a notification reaches: present only if a manager with a delegate is attached. */
    function ManagerDelegate(): Option<ObserverId>
      reads this, manager
    {
      if manager == null then None else manager.delegate
    }

    constructor(identifier: Identifier, request: Request, listeners: Option<seq<Listener>>)
      ensures Snapshot() == Initial(identifier, request, listeners)
      ensures url == request.url && manager == null
    {
      this.identifier := identifier;
      this.url := request.url;
      this.request := request;
      this.state := Unknown;
      this.lastState := Unknown;
      this.totalBytesWritten := 0;
      this.totalBytesExpectedToWrite := 0;
      this.listeners := listeners.GetOr([]);
      this.userInfo := map[];
      this.downloadTask := None;
      this.manager := null;
    }

    /** The convenience initializer that builds the request from a URL. */
    constructor FromUrl(identifier: Identifier, url: Url, listeners: Option<seq<Listener>>)
      ensures Snapshot() == Initial(identifier, Request(url), listeners)
      ensures this.url == url && manager == null
    {
      this.identifier := identifier;
      this.url := url;
      this.request := Request(url);
      this.state := Unknown;
      this.lastState := Unknown;
      this.totalBytesWritten := 0;
      this.totalBytesExpectedToWrite := 0;
      this.listeners := listeners.GetOr([]);
      this.userInfo := map[];
      this.downloadTask := None;
      this.manager := null;
    }

    method AddListener(listener: Listener)
      modifies this`listeners
      ensures listeners == old(listeners) + [listener]
    {
      listeners := listeners + [listener];
    }

    /**
     * Assign `state`: the outgoing value is copied to `lastState` first, then
     * every observer is told of the pair.
     */
    method SetState(to: State, ghost log: EventLog)
      modifies this`state, this`lastState, log
      ensures Snapshot() == WithState(old(Snapshot()), to)
      ensures log.events == old(log.events) + StateEvents(ManagerDelegate(), old(Snapshot()), to)
    {
      lastState := state;
      state := to;
      NotifyChangeStateListeners(log);
    }

    /** Assign the written count; this one assignment notifies progress. */
    method SetTotalBytesWritten(bytes: int64, ghost log: EventLog)
      modifies this`totalBytesWritten, log
      ensures Snapshot() == old(Snapshot()).(totalBytesWritten := bytes)
      ensures log.events == old(log.events)
        + FanOut(ManagerDelegate(), identifier, listeners,
                 ProgressUpdated(Progress(bytes, totalBytesExpectedToWrite), bytes, totalBytesExpectedToWrite))
    {
      totalBytesWritten := bytes;
      NotifyUpdateProgressListeners(log);
    }

    /** Assign the expected count; no notification. */
    method SetTotalBytesExpectedToWrite(bytes: int64)
      modifies this`totalBytesExpectedToWrite
      ensures Snapshot() == old(Snapshot()).(totalBytesExpectedToWrite := bytes)
    {
      totalBytesExpectedToWrite := bytes;
    }

    method NotifyChangeStateListeners(ghost log: EventLog)
      modifies log
      ensures log.events == old(log.events) + FanOut(ManagerDelegate(), identifier, listeners, StateChanged(lastState, state))
    {
      FanOutTo(StateChanged(lastState, state), log);
    }

    method NotifyUpdateProgressListeners(ghost log: EventLog)
      modifies log
      ensures log.events == old(log.events)
        + FanOut(ManagerDelegate(), identifier, listeners,
                 ProgressUpdated(Progress(totalBytesWritten, totalBytesExpectedToWrite), totalBytesWritten, totalBytesExpectedToWrite))
    {
      FanOutTo(ProgressUpdated(Progress(totalBytesWritten, totalBytesExpectedToWrite), totalBytesWritten, totalBytesExpectedToWrite), log);
    }

    /**
     * The loop both notify methods share: the manager's delegate, then each
     * listener in order, its delegate before its closure.
     */
    method FanOutTo(change: Change, ghost log: EventLog)
      modifies log
      ensures log.events == old(log.events) + FanOut(ManagerDelegate(), identifier, listeners, change)
    {
      if manager != null && manager.delegate.Some? {
        log.events := log.events + [ManagerDelegateNotified(manager.delegate.value, identifier, change)];
      }
      ghost var start := log.events;
      assert start == old(log.events) + ManagerEvents(ManagerDelegate(), identifier, change);
      for i := 0 to |listeners|
        invariant log.events == start + ListenersEvents(listeners[..i], identifier, change)
      {
        ghost var before := log.events;
        NotifyListener(listeners[i], change, log);
        ListenersEventsExtend(start, before, log.events, listeners, i, identifier, change);
      }
      assert listeners[..|listeners|] == listeners;
    }

    /** One listener's turn: its delegate, then its closure for this kind of change. */
    method NotifyListener(listener: Listener, change: Change, ghost log: EventLog)
      modifies log
      ensures log.events == old(log.events) + ListenerEvents(listener, identifier, change)
    {
      if listener.delegate.Some? {
        log.events := log.events + [FileDelegateNotified(listener.delegate.value, identifier, change)];
      }
      var block := BlockFor(listener, change);
      if block.Some? {
        log.events := log.events + [BlockCalled(block.value, change)];
      }
    }
  }

  /** The value of a collection of records. */
  ghost function ViewOf(files: map<Identifier, CheapjackFile>): Files
    reads files.Values
  {
    map id | id in files :: files[id].Snapshot()
  }

  /** Keeping the records in one state keeps their values in that state. */
  lemma ViewOfKept(files: map<Identifier, CheapjackFile>, kept: map<Identifier, CheapjackFile>, s: State)
    requires forall id :: id in kept <==> id in files && files[id].state == s
    requires forall id | id in kept :: kept[id] == files[id]
    ensures ViewOf(kept) == KeepState(ViewOf(files), s)
  {
  }

  /** File equality is identifier equality. */
  predicate SameFile(lhs: CheapjackFile, rhs: CheapjackFile) {
    lhs.identifier == rhs.identifier
  }

  class CheapjackManager {
    var delegate: Option<ObserverId>
    var deleteFileAfterComplete: bool
    var didFinishDownloadingBlock: Option<ObserverId>
    var files: map<Identifier, CheapjackFile>
    ghost const log: EventLog

    /** Every record is stored under its own identifier and links back to this manager. */
    ghost predicate Valid()
      reads this, files.Values
    {
      forall id | id in files :: files[id].identifier == id && files[id].manager == this
    }

    /** The collection as values. */
    ghost function View(): Files
      reads this, files.Values
    {
      ViewOf(files)
    }

    constructor(ghost log: EventLog)
      ensures Valid() && files == map[] && this.log == log
      ensures delegate == None && !deleteFileAfterComplete && didFinishDownloadingBlock == None
    {
      delegate := None;
      deleteFileAfterComplete := false;
      didFinishDownloadingBlock := None;
      files := map[];
      this.log := log;
    }

    /** `download`: a new record with one listener, stored under `identifier` (replacing any record there), then resumed. */
    method Download(request: Request, identifier: Identifier, userInfo: Option<UserInfo>,
                    fileDelegate: Option<ObserverId>, didChangeStateBlock: Option<ObserverId>,
                    didUpdateProgressBlock: Option<ObserverId>)
      requires Valid()
      modifies this`files, log
      ensures Valid()
      ensures identifier in files && fresh(files[identifier])
      ensures files == old(files)[identifier := files[identifier]]
      ensures View() == old(View())[identifier := Downloaded(identifier, request, userInfo,
                                       Listener(fileDelegate, didChangeStateBlock, didUpdateProgressBlock))]
      ensures log.events == old(log.events)
        + FanOut(delegate, identifier, [Listener(fileDelegate, didChangeStateBlock, didUpdateProgressBlock)],
                 StateChanged(Unknown, Waiting))
    {
      ghost var v0 := View();
      var listener := Listener(fileDelegate, didChangeStateBlock, didUpdateProgressBlock);
      var file := new CheapjackFile(identifier, request, Some([listener]));
      if userInfo.Some? {
        file.userInfo := userInfo.value;
      }
      assert file !in files.Values;
      assert View() == v0;
      assert Resumed(file.Snapshot()) == Downloaded(identifier, request, userInfo, listener);
      ResumeFile(file);
    }

    /** The `download` overload that takes a URL. */
    method DownloadUrl(url: Url, identifier: Identifier, userInfo: Option<UserInfo>,
                       fileDelegate: Option<ObserverId>, didChangeStateBlock: Option<ObserverId>,
                       didUpdateProgressBlock: Option<ObserverId>)
      requires Valid()
      modifies this`files, log
      ensures Valid()
      ensures identifier in files && fresh(files[identifier])
      ensures files == old(files)[identifier := files[identifier]]
      ensures View() == old(View())[identifier := Downloaded(identifier, Request(url), userInfo,
                                       Listener(fileDelegate, didChangeStateBlock, didUpdateProgressBlock))]
      ensures log.events == old(log.events)
        + FanOut(delegate, identifier, [Listener(fileDelegate, didChangeStateBlock, didUpdateProgressBlock)],
                 StateChanged(Unknown, Waiting))
    {
      Download(Request(url), identifier, userInfo, fileDelegate, didChangeStateBlock, didUpdateProgressBlock);
    }

    /** `pendingDownloads`: the number of records neither finished nor cancelled. */
    function PendingDownloads(): (n: nat)
      reads this, files.Values
      ensures n == |PendingIds(View())|
      ensures n + |StateIds(View(), Finished)| + |StateIds(View(), Cancelled)| == |files|
    {
      var pending := set id | id in files && IsPending(files[id].state);
      assert pending == PendingIds(View());
      PendingPartition(View());
      assert View().Keys == files.Keys;
      |pending|
    }

    // -------------------------------------------------------------------------
    // Commands by identifier: `false`, and no change, for an unknown identifier

    method Resume(identifier: Identifier) returns (ok: bool)
      requires Valid()
      modifies this`files, files.Values, log
      ensures Valid() && files == old(files)
      ensures ok == (identifier in old(files))
      ensures !ok ==> unchanged(files.Values) && log.events == old(log.events)
      ensures ok ==> View() == old(View())[identifier := Resumed(old(View())[identifier])]
      ensures ok ==> log.events == old(log.events) + StateEvents(delegate, old(View())[identifier], Waiting)
    {
      if identifier in files {
        var file := files[identifier];
        assert file in files.Values;
        ResumeFile(file);
        return true;
      }
      return false;
    }

    method Pause(identifier: Identifier) returns (ok: bool)
      requires Valid()
      modifies files.Values
      ensures Valid()
      ensures ok == (identifier in files)
      ensures !ok ==> unchanged(files.Values)
      ensures ok ==> View() == old(View())[identifier := PauseRequested(old(View())[identifier])]
    {
      if identifier in files {
        var file := files[identifier];
        assert file in files.Values;
        PauseFile(file);
        return true;
      }
      return false;
    }

    method Cancel(identifier: Identifier) returns (ok: bool)
      requires Valid()
      modifies files.Values, log
      ensures Valid()
      ensures ok == (identifier in files)
      ensures !ok ==> unchanged(files.Values) && log.events == old(log.events)
      ensures ok ==> View() == old(View())[identifier := CancelRequested(old(View())[identifier])]
      ensures ok ==> log.events == old(log.events) + StateEvents(delegate, old(View())[identifier], Cancelled)
    {
      if identifier in files {
        var file := files[identifier];
        assert file in files.Values;
        CancelFile(file);
        return true;
      }
      return false;
    }

    // -------------------------------------------------------------------------
    // Commands on a record

    /**
     * `resume(file)`: link the record to this manager, store it under its
     * identifier, move it to waiting and start a task, from the resume bytes
     * if it was paused and from its request otherwise.
     */
    method ResumeFile(file: CheapjackFile)
      requires Valid()
      modifies this`files, file, log
      ensures Valid()
      ensures files == old(files)[file.identifier := file] && file.manager == this
      ensures file.Snapshot() == Resumed(old(file.Snapshot()))
      ensures View() == old(View())[file.identifier := Resumed(old(file.Snapshot()))]
      ensures log.events == old(log.events) + StateEvents(delegate, old(file.Snapshot()), Waiting)
    {
      file.manager := this;
      files := files[file.identifier := file];
      var task: DownloadTask;
      if file.state.Paused? {
        var data := file.state.data;
        file.SetState(Waiting, log);
        task := DownloadTask(FromResumeData(data), None, Suspended);
      } else {
        file.SetState(Waiting, log);
        task := DownloadTask(FromRequest(file.request), None, Suspended);
      }
      task := task.(taskDescription := Some(file.identifier));
      task := task.(status := Running);
      file.downloadTask := Some(task);
      ViewAfterUpdate(file);
      ValidAfterUpdate(file);
    }

    /** `pause(file)`: ask the task, if any, to stop and produce resume bytes; the state moves later. */
    method PauseFile(file: CheapjackFile)
      requires Valid()
      modifies file`downloadTask
      ensures Valid()
      ensures file.Snapshot() == PauseRequested(old(file.Snapshot()))
      ensures file in files.Values ==> View() == old(View())[file.identifier := file.Snapshot()]
      ensures file !in files.Values ==> View() == old(View())
    {
      if file.downloadTask.Some? {
        file.downloadTask := Some(file.downloadTask.value.(status := CancelingWithResumeData));
      }
      ViewAfterUpdate(file);
      ValidAfterUpdate(file);
    }

    /**
     * The transport's answer to `pause(file)`: paused with the resume bytes,
     * or cancelled when the server does not support resuming.
     */
    method DidProduceResumeData(file: CheapjackFile, resumeData: Option<ResumeData>)
      requires Valid()
      modifies file`state, file`lastState, log
      ensures Valid()
      ensures file.Snapshot() == PauseSettled(old(file.Snapshot()), resumeData)
      ensures log.events == old(log.events)
        + StateEvents(file.ManagerDelegate(), old(file.Snapshot()), PauseSettled(old(file.Snapshot()), resumeData).state)
      ensures file in files.Values ==> View() == old(View())[file.identifier := file.Snapshot()]
      ensures file !in files.Values ==> View() == old(View())
    {
      if resumeData.Some? {
        file.SetState(Paused(resumeData.value), log);
      } else {
        file.SetState(Cancelled, log);
      }
      ViewAfterUpdate(file);
      ValidAfterUpdate(file);
    }

    /** `cancel(file)`: cancelled at once, and the task, if any, told to stop. */
    method CancelFile(file: CheapjackFile)
      requires Valid()
      modifies file`state, file`lastState, file`downloadTask, log
      ensures Valid()
      ensures file.Snapshot() == CancelRequested(old(file.Snapshot()))
      ensures log.events == old(log.events) + StateEvents(file.ManagerDelegate(), old(file.Snapshot()), Cancelled)
      ensures file in files.Values ==> View() == old(View())[file.identifier := file.Snapshot()]
      ensures file !in files.Values ==> View() == old(View())
    {
      file.SetState(Cancelled, log);
      if file.downloadTask.Some? {
        file.downloadTask := Some(file.downloadTask.value.(status := Canceling));
      }
      ViewAfterUpdate(file);
      ValidAfterUpdate(file);
    }

    // -------------------------------------------------------------------------
    // Commands on every record, in the dictionary's (unspecified) order

    /**
     * Part-way through bulk command `c`, which announces `to`:
     * the records listed in `order` (exactly the keys `done`) have been
     * moved, in that order, and the others are as in `v0`.
     */
    ghost predicate Progressing(v0: Files, e0: seq<Event>, done: set<Identifier>, order: seq<Identifier>,
                                c: Bulk, to: State)
      reads this, files.Values, log
    {
      && Valid() && v0.Keys == files.Keys && done <= files.Keys && Enumerates(order, done)
      && View() == Applied(v0, done, c)
      && log.events == e0 + EachEvents(delegate, v0, order, to)
    }

    method ResumeAll() returns (ghost order: seq<Identifier>)
      requires Valid()
      modifies this`files, files.Values, log
      ensures Valid() && files == old(files)
      ensures View() == ResumeEach(old(View()))
      ensures Enumerates(order, files.Keys)
      ensures log.events == old(log.events) + EachEvents(delegate, old(View()), order, Waiting)
    {
      ghost var v0, e0 := View(), log.events;
      var todo := files.Keys;
      ghost var done: set<Identifier> := {};
      order := [];
      AppliedNone(v0, Resuming);
      while todo != {}
        invariant files == old(files) && todo == files.Keys - done
        invariant Progressing(v0, e0, done, order, Resuming, Waiting)
        decreases todo
      {
        var identifier :| identifier in todo;
        VisitOne(files.Keys, todo, done, identifier);
        ResumeStep(identifier, v0, e0, done, order);
        todo, done, order := todo - {identifier}, done + {identifier}, order + [identifier];
      }
      VisitedAll(files.Keys, todo, done);
      AppliedAll(v0);
    }

    /** One turn of `resumeAll()`: resume the record stored under `identifier`. */
    method ResumeStep(identifier: Identifier, ghost v0: Files, ghost e0: seq<Event>,
                      ghost done: set<Identifier>, ghost order: seq<Identifier>)
      requires identifier in files && identifier !in done
      requires Progressing(v0, e0, done, order, Resuming, Waiting)
      modifies this`files, files.Values, log
      ensures files == old(files)
      ensures Progressing(v0, e0, done + {identifier}, order + [identifier], Resuming, Waiting)
    {
      var file := files[identifier];
      assert file in files.Values && file.manager == this;
      assert file.Snapshot() == View()[identifier] == v0[identifier];
      ghost var before := log.events;
      ResumeFile(file);
      AppliedStep(v0, done, Resuming, identifier);
      EnumeratesSnoc(order, done, identifier);
      EachEventsExtend(e0, before, log.events, delegate, v0, order, identifier, Waiting);
    }

    method PauseAll()
      requires Valid()
      modifies files.Values
      ensures Valid()
      ensures View() == PauseEach(old(View()))
    {
      ghost var v0 := View();
      var todo := files.Keys;
      ghost var done: set<Identifier> := {};
      AppliedNone(v0, Pausing);
      while todo != {}
        invariant Valid() && v0.Keys == files.Keys && done <= files.Keys && todo == files.Keys - done
        invariant View() == Applied(v0, done, Pausing)
        decreases todo
      {
        var identifier :| identifier in todo;
        VisitOne(files.Keys, todo, done, identifier);
        var file := files[identifier];
        assert file in files.Values;
        PauseFile(file);
        AppliedStep(v0, done, Pausing, identifier);
        todo, done := todo - {identifier}, done + {identifier};
      }
      VisitedAll(files.Keys, todo, done);
      AppliedAll(v0);
    }

    method CancelAll() returns (ghost order: seq<Identifier>)
      requires Valid()
      modifies files.Values, log
      ensures Valid()
      ensures View() == CancelEach(old(View()))
      ensures Enumerates(order, files.Keys)
      ensures log.events == old(log.events) + EachEvents(delegate, old(View()), order, Cancelled)
    {
      ghost var v0, e0 := View(), log.events;
      var todo := files.Keys;
      ghost var done: set<Identifier> := {};
      order := [];
      AppliedNone(v0, Cancelling);
      while todo != {}
        invariant todo == files.Keys - done
        invariant Progressing(v0, e0, done, order, Cancelling, Cancelled)
        decreases todo
      {
        var identifier :| identifier in todo;
        VisitOne(files.Keys, todo, done, identifier);
        CancelStep(identifier, v0, e0, done, order);
        todo, done, order := todo - {identifier}, done + {identifier}, order + [identifier];
      }
      VisitedAll(files.Keys, todo, done);
      AppliedAll(v0);
    }

    /** One turn of `cancelAll()`: cancel the record stored under `identifier`. */
    method CancelStep(identifier: Identifier, ghost v0: Files, ghost e0: seq<Event>,
                      ghost done: set<Identifier>, ghost order: seq<Identifier>)
      requires identifier in files && identifier !in done
      requires Progressing(v0, e0, done, order, Cancelling, Cancelled)
      modifies files.Values, log
      ensures Progressing(v0, e0, done + {identifier}, order + [identifier], Cancelling, Cancelled)
    {
      var file := files[identifier];
      assert file in files.Values && file.manager == this;
      assert file.Snapshot() == View()[identifier] == v0[identifier];
      ghost var before := log.events;
      CancelFile(file);
      AppliedStep(v0, done, Cancelling, identifier);
      EnumeratesSnoc(order, done, identifier);
      EachEventsExtend(e0, before, log.events, delegate, v0, order, identifier, Cancelled);
    }

    // -------------------------------------------------------------------------
    // Removal

    /** `remove(identifier)`: drop that key only; the record itself is not touched. */
    method Remove(identifier: Identifier)
      requires Valid()
      modifies this`files
      ensures Valid()
      ensures files == old(files) - {identifier}
      ensures View() == old(View()) - {identifier}
    {
      files := files - {identifier};
    }

    /**
     * `remove(filesWithState)`: keep exactly the records whose state equals
     * `filesWithState`. A copy of the collection loses every other key, then
     * replaces the collection.
     */
    method RemoveFilesWithState(filesWithState: State)
      requires Valid()
      modifies this`files
      ensures Valid()
      ensures forall id :: id in files <==> id in old(files) && old(files)[id].state == filesWithState
      ensures forall id | id in files :: files[id] == old(files)[id]
      ensures View() == KeepState(old(View()), filesWithState)
    {
      var filesCopy := FilesWithState(filesWithState);
      ViewOfKept(files, filesCopy, filesWithState);
      files := filesCopy;
    }

    /** The loop of `remove(filesWithState)`: a copy of the collection without the records in any other state. */
    method FilesWithState(filesWithState: State) returns (filesCopy: map<Identifier, CheapjackFile>)
      ensures forall id :: id in filesCopy <==> id in files && files[id].state == filesWithState
      ensures forall id | id in filesCopy :: filesCopy[id] == files[id]
    {
      filesCopy := files;
      var todo := files.Keys;
      while todo != {}
        invariant todo <= files.Keys && filesCopy.Keys <= files.Keys
        invariant forall id | id in files :: id in filesCopy <==> id in todo || files[id].state == filesWithState
        invariant forall id | id in filesCopy :: filesCopy[id] == files[id]
        decreases todo
      {
        var identifier :| identifier in todo;
        var file := files[identifier];
        if !Same(file.state, filesWithState) {
          filesCopy := filesCopy - {identifier};
        }
        todo := todo - {identifier};
      }
    }

    // -------------------------------------------------------------------------
    // Transport callbacks, addressed by the task's description (the identifier)

    /**
     * The write-progress callback: downloading (notified only if it was not
     * already), then the written count (notified), then the expected count.
     * An unknown identifier changes nothing. A record that was cancelled is
     * moved back to downloading all the same.
     */
    method DidWriteData(taskDescription: Identifier, bytesWritten: int64,
                        totalBytesWritten: int64, totalBytesExpectedToWrite: int64)
      requires Valid()
      modifies files.Values, log
      ensures Valid()
      ensures taskDescription !in files ==> unchanged(files.Values) && log.events == old(log.events)
      ensures taskDescription in files ==>
        View() == old(View())[taskDescription := DataWritten(old(View())[taskDescription], totalBytesWritten, totalBytesExpectedToWrite)]
      ensures taskDescription in files ==>
        log.events == old(log.events) + WriteEvents(delegate, old(View())[taskDescription], totalBytesWritten, totalBytesExpectedToWrite)
    {
      if taskDescription in files {
        var file := files[taskDescription];
        assert file in files.Values && file.manager == this;
        ghost var r0, e0 := file.Snapshot(), log.events;
        assert r0 == View()[taskDescription];
        if !Same(file.state, Downloading) {
          file.SetState(Downloading, log);
        }
        ghost var e1 := log.events;
        assert e1 == e0 + (if Same(r0.state, Downloading) then [] else StateEvents(delegate, r0, Downloading));
        file.SetTotalBytesWritten(totalBytesWritten, log);
        WriteEventsLogged(e0, e1, log.events, delegate, r0, totalBytesWritten, totalBytesExpectedToWrite);
        file.SetTotalBytesExpectedToWrite(totalBytesExpectedToWrite);
        ViewAfterUpdate(file);
        ValidAfterUpdate(file);
      }
    }

    /**
     * The finish callback: finished, then the manager's delegate and its
     * finish closure are called, then the record is dropped if the manager
     * is configured to. An unknown identifier changes nothing.
     */
    method DidFinishDownloadingTo(taskDescription: Identifier, location: Url)
      requires Valid()
      modifies this`files, files.Values, log
      ensures Valid()
      ensures taskDescription !in old(files) ==>
        files == old(files) && unchanged(files.Values) && log.events == old(log.events)
      ensures taskDescription in old(files) ==>
        files == if deleteFileAfterComplete then old(files) - {taskDescription} else old(files)
      // `old(files)[taskDescription]` is the record object stored before the
      // call; its `state` is read after the call, even when its key was dropped.
      ensures taskDescription in old(files) ==>
        && old(files)[taskDescription].state == Finished
        && View() == FinishIn(old(View()), taskDescription, deleteFileAfterComplete)
        && log.events == old(log.events)
             + FinishEvents(delegate, didFinishDownloadingBlock, old(View())[taskDescription], location)
    {
      if taskDescription in files {
        ghost var v0 := View();
        var file := files[taskDescription];
        assert file.Snapshot() == v0[taskDescription];
        NotifyFinished(file, location);
        FinishInSteps(v0, taskDescription, View());
        if deleteFileAfterComplete {
          Remove(taskDescription);
        }
      }
    }

    /** The part of the finish callback that a known record goes through before it may be dropped. */
    method NotifyFinished(file: CheapjackFile, location: Url)
      requires Valid() && file.identifier in files && files[file.identifier] == file
      modifies file`state, file`lastState, log
      ensures Valid()
      ensures file.Snapshot() == Completed(old(file.Snapshot()))
      ensures View() == old(View())[file.identifier := Completed(old(file.Snapshot()))]
      ensures log.events == old(log.events) + FinishEvents(delegate, didFinishDownloadingBlock, old(file.Snapshot()), location)
    {
      file.SetState(Finished, log);
      if delegate.Some? {
        log.events := log.events + [ManagerDidFinishDownloading(delegate.value, file.identifier, location)];
      }
      if didFinishDownloadingBlock.Some? {
        log.events := log.events + [FinishBlockCalled(didFinishDownloadingBlock.value, file.identifier, location)];
      }
      ViewAfterUpdate(file);
      ValidAfterUpdate(file);
    }

    /**
     * After `file` alone changed, the collection's value differs at most at
     * the file's identifier.
     */
    twostate lemma ViewAfterUpdate(file: CheapjackFile)
      requires old(Valid())
      requires files == old(files) || files == old(files)[file.identifier := file]
      requires forall f: CheapjackFile | f in old(files).Values && f != file :: f.Snapshot() == old(f.Snapshot()) && f.manager == old(f.manager)
      ensures file in files.Values ==> View() == old(View())[file.identifier := file.Snapshot()]
      ensures file !in files.Values ==> View() == old(View())
    {
    }

    /** The same, for the manager's invariant. */
    twostate lemma ValidAfterUpdate(file: CheapjackFile)
      requires old(Valid())
      requires files == old(files) || files == old(files)[file.identifier := file]
      requires forall f: CheapjackFile | f in old(files).Values && f != file :: f.manager == old(f.manager)
      requires file in files.Values ==> file.manager == this
      ensures Valid()
    {
    }
  }

  /** Within one manager, two records are `==` exactly when they are the same record. */
  lemma SameFileIsSameEntry(manager: CheapjackManager, lhs: CheapjackFile, rhs: CheapjackFile)
    requires manager.Valid() && lhs in manager.files.Values && rhs in manager.files.Values
    ensures SameFile(lhs, rhs) <==> lhs == rhs
  {
    var i :| i in manager.files && manager.files[i] == lhs;
    var j :| j in manager.files && manager.files[j] == rhs;
  }
}
