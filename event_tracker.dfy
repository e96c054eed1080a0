/**
 * `EventTracker` as a class. Its fields are the source's `lastActivity`,
 * `isIdle` and `disposables`, the part of the extension context's
 * `subscriptions` it adds to, the `dispose()` calls it makes, and `log`, the
 * events it hands to `storeEvent`. Each method is proved against the
 * matching function of `TrackerSpec` and keeps that module's invariant.
 */
module EventTracking {
  import opened Events
  import TrackerSpec

  class EventTracker {
    var lastActivity: int
    var isIdle: bool
    var disposables: seq<TrackerSpec.Listener>
    var contextSubscriptions: seq<TrackerSpec.Registration>
    var disposeCalls: seq<TrackerSpec.Listener>
    var log: seq<Event>

    /** The `idleThresholdMs` field: read-only, five minutes. */
    const idleThresholdMs: int := TrackerSpec.IdleThresholdMs

    /** The tracker's state as a value. */
    function Snapshot(): TrackerSpec.Tracker
      reads this
    {
      TrackerSpec.Tracker(lastActivity, isIdle, disposables, contextSubscriptions, disposeCalls, log)
    }

    ghost predicate Valid()
      reads this
    {
      TrackerSpec.Consistent(Snapshot())
    }

    /** `lastActivity` starts at the construction time `now`. */
    constructor (now: int)
      ensures Snapshot() == TrackerSpec.Initial(now) && Valid()
    {
      lastActivity := now;
      isIdle := false;
      disposables := [];
      contextSubscriptions := [];
      disposeCalls := [];
      log := [];
    }

    method StartTracking(now: int, version: string)
      requires Valid()
      modifies this
      ensures Snapshot() == TrackerSpec.StartTracking(old(Snapshot()), now, version) && Valid()
    {
      RecordSessionStartEvent(now, version);
      MonitorEditorEvents();
      StartIdleCheck();
    }

    method RecordSessionStartEvent(now: int, version: string)
      requires Valid()
      modifies this
      ensures Snapshot() == TrackerSpec.RecordSessionStartEvent(old(Snapshot()), now, version) && Valid()
    {
      TrackerSpec.AppendNonMarker(Snapshot(), SessionStart(now, version),
        TrackerSpec.RecordSessionStartEvent(Snapshot(), now, version));
      log := log + [SessionStart(now, version)];
    }

    method MonitorEditorEvents()
      requires Valid()
      modifies this
      ensures Snapshot() == TrackerSpec.MonitorEditorEvents(old(Snapshot())) && Valid()
    {
      disposables := disposables + [TrackerSpec.ActiveEditorListener];
      disposables := disposables + [TrackerSpec.TextChangeListener];
      disposables := disposables + [TrackerSpec.SaveListener];
      disposables := disposables + [TrackerSpec.WindowStateListener];
      contextSubscriptions := contextSubscriptions + [TrackerSpec.CloseDocumentListener];
    }

    method StartIdleCheck()
      requires Valid()
      modifies this
      ensures Snapshot() == TrackerSpec.StartIdleCheck(old(Snapshot())) && Valid()
    {
      contextSubscriptions := contextSubscriptions + [TrackerSpec.IdleIntervalDisposer];
    }

    /** The interval callback of `startIdleCheck`, fired at time `now`. */
    method IdleCheck(now: int)
      requires Valid()
      modifies this
      ensures Snapshot() == TrackerSpec.IdleCheck(old(Snapshot()), now) && Valid()
    {
      TrackerSpec.IdleCheckKeepsConsistent(Snapshot(), now);
      var timeSinceLastActivity := now - lastActivity;
      if !isIdle && timeSinceLastActivity > idleThresholdMs {
        isIdle := true;
        log := log + [IdleStart(now, idleThresholdMs)];
      }
    }

    method RecordActivity(activityType: ActivityType, data: ActivityData, now: int)
      requires Valid()
      modifies this
      ensures Snapshot() == TrackerSpec.RecordActivity(old(Snapshot()), activityType, data, now) && Valid()
    {
      TrackerSpec.RecordActivityKeepsConsistent(Snapshot(), activityType, data, now);
      if isIdle {
        isIdle := false;
        log := log + [IdleEnd(now, now - lastActivity)];
      }
      lastActivity := now;
      log := log + [Activity(activityType, now, data)];
    }

    /** One of the four listeners receiving its notification at time `now`. */
    method Notify(n: TrackerSpec.Notification, now: int)
      requires Valid()
      modifies this
      ensures Snapshot() == TrackerSpec.Notify(old(Snapshot()), n, now) && Valid()
    {
      match n
      case ActiveTextEditorChanged(editor) =>
        if editor.Some? {
          RecordActivity(EditorChange, DocumentData(editor.value), now);
        }
      case TextDocumentChanged(fileName, contentChanges) =>
        RecordActivity(TextEdit, EditData(fileName, |contentChanges|), now);
      case TextDocumentSaved(fileName) =>
        RecordActivity(DocumentSave, DocumentData(fileName), now);
      case WindowStateChanged(focused) =>
        if focused {
          RecordActivity(WindowFocus, NoData, now);
        } else {
          RecordActivity(WindowBlur, NoData, now);
        }
    }

    method Dispose(now: int)
      requires Valid()
      modifies this
      ensures Snapshot() == TrackerSpec.Dispose(old(Snapshot()), now) && Valid()
    {
      TrackerSpec.StepKeepsConsistent(Snapshot(), TrackerSpec.Stop(now));
      log := log + [SessionEnd(now)];
      var i := 0;
      while i < |disposables|
        invariant 0 <= i <= |disposables|
        invariant disposables == old(disposables) && log == old(log) + [SessionEnd(now)]
        invariant lastActivity == old(lastActivity) && isIdle == old(isIdle)
        invariant contextSubscriptions == old(contextSubscriptions)
        invariant disposeCalls == old(disposeCalls) + disposables[..i]
      {
        disposeCalls := disposeCalls + [disposables[i]];
        i := i + 1;
      }
      assert disposables[..i] == disposables;
    }
  }

  /** The end-to-end session of `TrackerSpec.SessionScenario`, driven through the class. */
  method SessionScenario(version: string, file: string, change: TrackerSpec.TextChange) returns (log: seq<Event>)
    ensures log == [SessionStart(0, version),
                    Activity(DocumentSave, 10000, DocumentData(file)),
                    IdleStart(360000, 300000),
                    IdleEnd(400000, 390000),
                    Activity(TextEdit, 400000, EditData(file, 1)),
                    SessionEnd(410000)]
  {
    var save, edit := Activity(DocumentSave, 10000, DocumentData(file)), Activity(TextEdit, 400000, EditData(file, 1));
    var tracker := new EventTracker(0);
    tracker.StartTracking(0, version);
    assert tracker.log == [SessionStart(0, version)] && !tracker.isIdle;
    tracker.Notify(TrackerSpec.TextDocumentSaved(file), 10000);
    assert tracker.log == [SessionStart(0, version), save];
    assert tracker.lastActivity == 10000 && !tracker.isIdle;
    tracker.IdleCheck(360000);
    assert tracker.log == [SessionStart(0, version), save, IdleStart(360000, 300000)];
    assert tracker.isIdle && tracker.lastActivity == 10000;
    tracker.Notify(TrackerSpec.TextDocumentChanged(file, [change]), 400000);
    assert tracker.log == [SessionStart(0, version), save, IdleStart(360000, 300000), IdleEnd(400000, 390000), edit];
    tracker.Dispose(410000);
    log := tracker.log;
  }
}
