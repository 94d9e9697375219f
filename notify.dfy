/**
 * Listener registrations and the order in which a transfer record notifies
 * its observers. Observers (delegate objects and closures) are code the
 * library cannot see; each call to one is recorded as an `Event`, so the
 * order and contents of notifications can be stated as a sequence.
 */
module Notify {
  import opened Wrappers
  import opened FileState

  /** The identity of a delegate object or of a closure. */
  type ObserverId = nat

  /**
   * `CheapjackFile.Listener`: an optional (weak) delegate and two optional
   * closures, one per kind of notification.
   */
  datatype Listener = Listener(
    delegate: Option<ObserverId>,
    didChangeStateBlock: Option<ObserverId>,
    didUpdateProgressBlock: Option<ObserverId>)

  /** What is being reported: a state transition or a progress tick. */
  datatype Change =
    | StateChanged(from: State, to: State)
    | ProgressUpdated(progress: real, totalBytesWritten: int64, totalBytesExpectedToWrite: int64)

  /** One call into an observer. */
  datatype Event =
    | ManagerDelegateNotified(delegate: ObserverId, file: Identifier, change: Change)
    | FileDelegateNotified(delegate: ObserverId, file: Identifier, change: Change)
    | BlockCalled(block: ObserverId, change: Change)
    | ManagerDidFinishDownloading(delegate: ObserverId, file: Identifier, location: Url)
    | FinishBlockCalled(block: ObserverId, file: Identifier, location: Url)

  /** The closure of a listener that handles this kind of change. */
  function BlockFor(l: Listener, c: Change): Option<ObserverId> {
    if c.StateChanged? then l.didChangeStateBlock else l.didUpdateProgressBlock
  }

  /** The calls one listener receives: its delegate first, then its closure. */
  function ListenerEvents(l: Listener, file: Identifier, c: Change): seq<Event> {
    (match l.delegate
     case Some(d) => [FileDelegateNotified(d, file, c)]
     case None => [])
    +
    (match BlockFor(l, c)
     case Some(b) => [BlockCalled(b, c)]
     case None => [])
  }

  /** The calls a list of listeners receives, listener by listener in list order. */
  function ListenersEvents(ls: seq<Listener>, file: Identifier, c: Change): seq<Event>
    decreases |ls|
  {
    if ls == [] then []
    else ListenersEvents(ls[..|ls| - 1], file, c) + ListenerEvents(ls[|ls| - 1], file, c)
  }

  /** The call to the manager's delegate, when a manager with a delegate is attached. */
  function ManagerEvents(managerDelegate: Option<ObserverId>, file: Identifier, c: Change): seq<Event> {
    match managerDelegate
    case Some(d) => [ManagerDelegateNotified(d, file, c)]
    case None => []
  }

  /** A whole notification: the manager's delegate first, then every listener. */
  function FanOut(managerDelegate: Option<ObserverId>, file: Identifier, ls: seq<Listener>, c: Change): seq<Event> {
    ManagerEvents(managerDelegate, file, c) + ListenersEvents(ls, file, c)
  }

  /** The number of observer slots of `ls` that handle changes of the kind of `c`. */
  function SlotCount(ls: seq<Listener>, c: Change): nat
    decreases |ls|
  {
    if ls == [] then 0
    else
      SlotCount(ls[..|ls| - 1], c)
      + (if ls[|ls| - 1].delegate.Some? then 1 else 0)
      + (if BlockFor(ls[|ls| - 1], c).Some? then 1 else 0)
  }

  /** The change an event reports, if it reports one. */
  function Reported(e: Event): Option<Change> {
    match e
    case ManagerDelegateNotified(_, _, c) => Some(c)
    case FileDelegateNotified(_, _, c) => Some(c)
    case BlockCalled(_, c) => Some(c)
    case _ => None
  }

  /** A log that held the calls for the first `i` listeners and then gained listener `i`'s holds them for `i + 1`. */
  lemma ListenersEventsExtend(start: seq<Event>, before: seq<Event>, after: seq<Event>,
                              ls: seq<Listener>, i: nat, file: Identifier, c: Change)
    requires i < |ls|
    requires before == start + ListenersEvents(ls[..i], file, c)
    requires after == before + ListenerEvents(ls[i], file, c)
    ensures after == start + ListenersEvents(ls[..i + 1], file, c)
  {
    assert ls[..i + 1][..i] == ls[..i];
  }

  /** Notifying a concatenation of listener lists notifies the first list, then the second. */
  lemma {:induction false} ListenersEventsAppend(ls1: seq<Listener>, ls2: seq<Listener>, file: Identifier, c: Change)
    ensures ListenersEvents(ls1 + ls2, file, c) == ListenersEvents(ls1, file, c) + ListenersEvents(ls2, file, c)
    decreases |ls2|
  {
    if ls2 == [] {
      assert ls1 + ls2 == ls1;
    } else {
      var init := ls2[..|ls2| - 1];
      assert (ls1 + ls2)[..|ls1 + ls2| - 1] == ls1 + init;
      assert (ls1 + ls2)[|ls1 + ls2| - 1] == ls2[|ls2| - 1];
      ListenersEventsAppend(ls1, init, file, c);
    }
  }

  /**
   * Listener `i` is notified after the manager's delegate and every earlier
   * listener, and before every later listener.
   */
  lemma FanOutOrder(managerDelegate: Option<ObserverId>, file: Identifier, ls: seq<Listener>, c: Change, i: nat)
    requires i < |ls|
    ensures FanOut(managerDelegate, file, ls, c)
         == ManagerEvents(managerDelegate, file, c)
          + ListenersEvents(ls[..i], file, c)
          + ListenerEvents(ls[i], file, c)
          + ListenersEvents(ls[i + 1..], file, c)
  {
    var before, after := ls[..i], ls[i + 1..];
    assert ls == (before + [ls[i]]) + after;
    var m, b, l, a := ManagerEvents(managerDelegate, file, c), ListenersEvents(before, file, c),
                      ListenerEvents(ls[i], file, c), ListenersEvents(after, file, c);
    assert ListenersEvents([ls[i]], file, c) == l by {
      assert [ls[i]][..0] == [];
    }
    calc {
      FanOut(managerDelegate, file, ls, c);
      m + ListenersEvents((before + [ls[i]]) + after, file, c);
      { ListenersEventsAppend(before + [ls[i]], after, file, c); }
      m + (ListenersEvents(before + [ls[i]], file, c) + a);
      { ListenersEventsAppend(before, [ls[i]], file, c); }
      m + ((b + l) + a);
      m + b + l + a;
    }
  }

  /** Every call of a notification reports the same change, and nothing else. */
  lemma {:induction false} ListenersEventsReport(ls: seq<Listener>, file: Identifier, c: Change)
    ensures forall e | e in ListenersEvents(ls, file, c) :: Reported(e) == Some(c)
    decreases |ls|
  {
    if ls != [] {
      ListenersEventsReport(ls[..|ls| - 1], file, c);
    }
  }

  /**
   * A notification calls each observer slot that handles its kind exactly
   * once, the manager's delegate first when there is one, and every call
   * reports the change being notified.
   */
  lemma FanOutShape(managerDelegate: Option<ObserverId>, file: Identifier, ls: seq<Listener>, c: Change)
    ensures |FanOut(managerDelegate, file, ls, c)| == (if managerDelegate.Some? then 1 else 0) + SlotCount(ls, c)
    ensures managerDelegate.Some? ==> FanOut(managerDelegate, file, ls, c)[0] == ManagerDelegateNotified(managerDelegate.value, file, c)
    ensures forall e | e in FanOut(managerDelegate, file, ls, c) :: Reported(e) == Some(c)
  {
    ListenersEventsReport(ls, file, c);
    ListenersEventsSize(ls, file, c);
  }

  lemma {:induction false} ListenersEventsSize(ls: seq<Listener>, file: Identifier, c: Change)
    ensures |ListenersEvents(ls, file, c)| == SlotCount(ls, c)
    decreases |ls|
  {
    if ls != [] {
      ListenersEventsSize(ls[..|ls| - 1], file, c);
    }
  }

  /** Adding a listener adds its calls at the end of every later notification. */
  lemma FanOutAddListener(managerDelegate: Option<ObserverId>, file: Identifier, ls: seq<Listener>, l: Listener, c: Change)
    ensures FanOut(managerDelegate, file, ls + [l], c) == FanOut(managerDelegate, file, ls, c) + ListenerEvents(l, file, c)
  {
    assert (ls + [l])[..|ls + [l]| - 1] == ls;
  }
}
