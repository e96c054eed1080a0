/**
 * The activity/idle state machine of `EventTracker`, as functions from the
 * tracker's state before an operation to its state after it. The events an
 * operation hands to `storeEvent` are appended to `log`, in call order.
 */
module TrackerSpec {
  import opened Events

  /** `idleThresholdMs`: five minutes. */
  const IdleThresholdMs: int := 5 * 60 * 1000

  /** The four editor subscriptions that `monitorEditorEvents` pushes onto `disposables`. */
  datatype Listener = ActiveEditorListener | TextChangeListener | SaveListener | WindowStateListener

  /** What the tracker pushes onto the extension context's `subscriptions` instead. */
  datatype Registration = CloseDocumentListener | IdleIntervalDisposer

  /** One content change of a text-document change notification. */
  datatype TextChange = TextChange(rangeOffset: nat, rangeLength: nat, text: string)

  /** The editor notifications the four listeners receive. */
  datatype Notification =
    | ActiveTextEditorChanged(editor: Option<string>)        // the new editor's document file name, or no editor
    | TextDocumentChanged(fileName: string, contentChanges: seq<TextChange>)
    | TextDocumentSaved(fileName: string)
    | WindowStateChanged(focused: bool)

  /** The arguments a listener passes to `recordActivity`. */
  datatype ActivityCall = ActivityCall(subtype: ActivityType, data: ActivityData)

  datatype Tracker = Tracker(
    lastActivity: int,
    isIdle: bool,
    disposables: seq<Listener>,
    contextSubscriptions: seq<Registration>,
    disposeCalls: seq<Listener>,   // the listeners whose `dispose()` has been called, in call order
    log: seq<Event>)               // the events handed to `storeEvent`, in call order

  /** A freshly constructed tracker: `lastActivity` is the construction time. */
  function Initial(now: int): Tracker {
    Tracker(now, false, [], [], [], [])
  }

  function RecordSessionStartEvent(t: Tracker, now: int, version: string): Tracker {
    t.(log := t.log + [SessionStart(now, version)])
  }

  function MonitorEditorEvents(t: Tracker): Tracker {
    t.(disposables := t.disposables + [ActiveEditorListener, TextChangeListener, SaveListener, WindowStateListener],
       contextSubscriptions := t.contextSubscriptions + [CloseDocumentListener])
  }

  function StartIdleCheck(t: Tracker): Tracker {
    t.(contextSubscriptions := t.contextSubscriptions + [IdleIntervalDisposer])
  }

  function StartTracking(t: Tracker, now: int, version: string): Tracker {
    StartIdleCheck(MonitorEditorEvents(RecordSessionStartEvent(t, now, version)))
  }

  /** The listener bodies: which `recordActivity` call a notification leads to, if any. */
  function Handler(n: Notification): Option<ActivityCall> {
    match n
    case ActiveTextEditorChanged(editor) =>
      if editor.Some? then Some(ActivityCall(EditorChange, DocumentData(editor.value))) else None
    case TextDocumentChanged(fileName, changes) => Some(ActivityCall(TextEdit, EditData(fileName, |changes|)))
    case TextDocumentSaved(fileName) => Some(ActivityCall(DocumentSave, DocumentData(fileName)))
    case WindowStateChanged(focused) =>
      Some(ActivityCall(if focused then WindowFocus else WindowBlur, NoData))
  }

  function RecordActivity(t: Tracker, subtype: ActivityType, data: ActivityData, now: int): Tracker {
    var ended := if t.isIdle then [IdleEnd(now, now - t.lastActivity)] else [];
    t.(isIdle := false, lastActivity := now, log := t.log + ended + [Activity(subtype, now, data)])
  }

  function Notify(t: Tracker, n: Notification, now: int): Tracker {
    match Handler(n)
    case None => t
    case Some(call) => RecordActivity(t, call.subtype, call.data, now)
  }

  /** The body of the interval callback of `startIdleCheck`, run at time `now`. */
  function IdleCheck(t: Tracker, now: int): Tracker {
    if !t.isIdle && now - t.lastActivity > IdleThresholdMs
    then t.(isIdle := true, log := t.log + [IdleStart(now, IdleThresholdMs)])
    else t
  }

  function Dispose(t: Tracker, now: int): Tracker {
    t.(log := t.log + [SessionEnd(now)], disposeCalls := t.disposeCalls + t.disposables)
  }

  // ---------------------------------------------------------------------------
  // Runs: the tracker driven by a sequence of operations

  datatype Step =
    | Start(at: int, version: string)
    | Deliver(notification: Notification, at: int)
    | Tick(at: int)
    | Stop(at: int)

  function Apply(t: Tracker, s: Step): Tracker {
    match s
    case Start(now, version) => StartTracking(t, now, version)
    case Deliver(n, now) => Notify(t, n, now)
    case Tick(now) => IdleCheck(t, now)
    case Stop(now) => Dispose(t, now)
  }

  /** The state after the steps, applied in order. */
  function Run(t: Tracker, steps: seq<Step>): Tracker
    decreases |steps|
  {
    if steps == [] then t else Apply(Run(t, steps[..|steps| - 1]), steps[|steps| - 1])
  }

  // ---------------------------------------------------------------------------
  // The idle-marker invariant

  /** Markers strictly alternate, `idle_start` first. */
  predicate Alternating(ms: seq<Event>) {
    forall i :: 0 <= i < |ms| ==> (ms[i].IdleStart? <==> i % 2 == 0)
  }

  /** In an alternating sequence the last marker is an `idle_start` exactly when there is an odd number. */
  lemma AlternatingLast(ms: seq<Event>)
    requires Alternating(ms)
    ensures (|ms| > 0 && ms[|ms| - 1].IdleStart?) <==> |ms| % 2 == 1
  {
  }

  lemma AlternatingSnoc(ms: seq<Event>, e: Event)
    requires Alternating(ms)
    requires e.IdleStart? <==> |ms| % 2 == 0
    ensures Alternating(ms + [e])
  {
    assert forall i :: 0 <= i < |ms| ==> (ms + [e])[i] == ms[i];
  }

  /**
   * The tracker's invariant: the logged idle markers alternate; `isIdle` holds
   * exactly when the last marker is an `idle_start`; and then that marker
   * carries the threshold and was emitted strictly more than the threshold
   * after `lastActivity`.
   */
  predicate Consistent(t: Tracker) {
    var ms := Markers(t.log);
    Alternating(ms)
    && (t.isIdle <==> |ms| > 0 && ms[|ms| - 1].IdleStart?)
    && (t.isIdle ==> ms[|ms| - 1].idleThreshold == IdleThresholdMs
                     && ms[|ms| - 1].timestamp - t.lastActivity > IdleThresholdMs)
  }

  lemma InitialConsistent(now: int)
    ensures Consistent(Initial(now)) && !Initial(now).isIdle && Initial(now).log == []
  {
  }

  /** Appending an event that is no marker keeps the invariant, when the idle state is kept too. */
  lemma AppendNonMarker(t: Tracker, e: Event, t': Tracker)
    requires Consistent(t) && !IsMarker(e)
    requires t'.log == t.log + [e] && t'.isIdle == t.isIdle && t'.lastActivity == t.lastActivity
    ensures Consistent(t')
  {
    MarkersSnoc(t.log, e);
  }

  /** The idle tick keeps the invariant. */
  lemma IdleCheckKeepsConsistent(t: Tracker, now: int)
    requires Consistent(t)
    ensures Consistent(IdleCheck(t, now))
  {
    var ms := Markers(t.log);
    var t' := IdleCheck(t, now);
    if t' != t {
      var e := IdleStart(now, IdleThresholdMs);
      MarkersSnoc(t.log, e);
      AlternatingLast(ms);
      AlternatingSnoc(ms, e);
    }
  }

  /** An active tracker whose alternating markers do not end in an `idle_start` is consistent. */
  lemma ActiveConsistent(t: Tracker, ms: seq<Event>)
    requires !t.isIdle && Markers(t.log) == ms && Alternating(ms)
    requires ms == [] || !ms[|ms| - 1].IdleStart?
    ensures Consistent(t)
  {
  }

  /** `recordActivity` keeps the invariant, closing an open idle period. */
  lemma RecordActivityKeepsConsistent(t: Tracker, subtype: ActivityType, data: ActivityData, now: int)
    requires Consistent(t)
    ensures Consistent(RecordActivity(t, subtype, data, now))
  {
    var ms := Markers(t.log);
    var a := Activity(subtype, now, data);
    var t' := RecordActivity(t, subtype, data, now);
    if t.isIdle {
      var e := IdleEnd(now, now - t.lastActivity);
      assert t'.log == (t.log + [e]) + [a];
      MarkersSnoc(t.log, e);
      MarkersSnoc(t.log + [e], a);
      assert Markers(t'.log) == ms + [e];
      AlternatingLast(ms);
      AlternatingSnoc(ms, e);
      ActiveConsistent(t', ms + [e]);
    } else {
      assert t'.log == t.log + [a];
      MarkersSnoc(t.log, a);
      ActiveConsistent(t', ms);
    }
  }

  /** Every operation keeps the invariant. */
  lemma StepKeepsConsistent(t: Tracker, s: Step)
    requires Consistent(t)
    ensures Consistent(Apply(t, s))
  {
    match s
    case Start(now, version) =>
      AppendNonMarker(t, SessionStart(now, version), Apply(t, s));
    case Stop(now) =>
      AppendNonMarker(t, SessionEnd(now), Apply(t, s));
    case Tick(now) =>
      IdleCheckKeepsConsistent(t, now);
    case Deliver(n, now) =>
      match Handler(n)
      case None =>
        assert Apply(t, s) == t;
      case Some(call) =>
        assert Apply(t, s) == RecordActivity(t, call.subtype, call.data, now);
        RecordActivityKeepsConsistent(t, call.subtype, call.data, now);
  }

  /** The invariant holds after any run from a fresh tracker. */
  lemma {:induction false} RunKeepsConsistent(t: Tracker, steps: seq<Step>)
    requires Consistent(t)
    ensures Consistent(Run(t, steps))
    decreases |steps|
  {
    if steps != [] {
      RunKeepsConsistent(t, steps[..|steps| - 1]);
      StepKeepsConsistent(Run(t, steps[..|steps| - 1]), steps[|steps| - 1]);
    }
  }

  /** The log only grows: every operation appends to it. */
  lemma {:induction false} RunExtendsLog(t: Tracker, steps: seq<Step>)
    ensures |Run(t, steps).log| >= |t.log| && Run(t, steps).log[..|t.log|] == t.log
    decreases |steps|
  {
    if steps != [] {
      var mid := Run(t, steps[..|steps| - 1]);
      RunExtendsLog(t, steps[..|steps| - 1]);
      assert Apply(mid, steps[|steps| - 1]).log[..|mid.log|] == mid.log;
    }
  }

  // ---------------------------------------------------------------------------
  // Properties of single operations

  /**
   * `recordActivity` while idle emits `idle_end` then `activity`, nothing in
   * between; the idle duration counts from the previous `lastActivity`.
   * Otherwise it emits only the `activity` event. Afterwards the tracker is
   * active with `lastActivity == now`; the listeners are untouched.
   */
  lemma RecordActivityEmits(t: Tracker, subtype: ActivityType, data: ActivityData, now: int)
    ensures var t' := RecordActivity(t, subtype, data, now);
      !t'.isIdle && t'.lastActivity == now
      && t'.disposables == t.disposables && t'.contextSubscriptions == t.contextSubscriptions
      && t'.disposeCalls == t.disposeCalls
      && |t'.log| == |t.log| + (if t.isIdle then 2 else 1) && t'.log[..|t.log|] == t.log
      && t'.log[|t'.log| - 1] == Activity(subtype, now, data)
      && (t.isIdle ==> t'.log[|t.log|] == IdleEnd(now, now - t.lastActivity))
  {
  }

  /**
   * Under the invariant, an `idle_end` closes an open `idle_start`; with a
   * clock that has not gone back since that `idle_start`, its duration
   * (`now` minus the previous `lastActivity`, as `RecordActivityEmits`
   * states) exceeds the threshold.
   */
  lemma IdleEndDuration(t: Tracker, subtype: ActivityType, data: ActivityData, now: int)
    requires Consistent(t) && t.isIdle
    ensures var started := Markers(t.log)[|Markers(t.log)| - 1];
      var t' := RecordActivity(t, subtype, data, now);
      started.IdleStart? && t'.log[|t.log|].IdleEnd?
      && (now >= started.timestamp ==> t'.log[|t.log|].idleDuration > IdleThresholdMs)
  {
  }

  /**
   * The idle tick emits one `idle_start` carrying the threshold and sets the
   * idle flag exactly when the tracker is active and strictly more than the
   * threshold has passed; otherwise it changes nothing. It never moves
   * `lastActivity`.
   */
  lemma IdleCheckEmits(t: Tracker, now: int)
    ensures var t' := IdleCheck(t, now);
      t'.lastActivity == t.lastActivity
      && (t'.isIdle <==> t.isIdle || now - t.lastActivity > IdleThresholdMs)
      && (if !t.isIdle && now - t.lastActivity > IdleThresholdMs
          then t' == t.(isIdle := true, log := t.log + [IdleStart(now, IdleThresholdMs)])
          else t' == t)
  {
  }

  /** Ticks while idle emit nothing. */
  lemma TickWhileIdle(t: Tracker, now: int)
    requires t.isIdle
    ensures IdleCheck(t, now) == t
  {
  }

  /** Only the idle tick turns the idle flag on. */
  lemma OnlyTickSetsIdle(t: Tracker, s: Step)
    requires !t.isIdle && Apply(t, s).isIdle
    ensures s.Tick? && s.at - t.lastActivity > IdleThresholdMs
  {
  }

  /** Only a notification that reaches `recordActivity` turns the idle flag off. */
  lemma OnlyActivityClearsIdle(t: Tracker, s: Step)
    requires t.isIdle && !Apply(t, s).isIdle
    ensures s.Deliver? && Handler(s.notification).Some?
  {
  }

  /**
   * `startTracking` on a new tracker logs `session_start` with the host
   * version as the very first event and registers exactly the four editor
   * listeners, plus the close-document listener and the interval disposer on
   * the context.
   */
  lemma StartTrackingRegisters(created: int, now: int, version: string)
    ensures var t := StartTracking(Initial(created), now, version);
      t.log == [SessionStart(now, version)]
      && t.disposables == [ActiveEditorListener, TextChangeListener, SaveListener, WindowStateListener]
      && |t.disposables| == 4
      && t.contextSubscriptions == [CloseDocumentListener, IdleIntervalDisposer]
      && t.lastActivity == created && !t.isIdle
  {
  }

  /** The notification-to-activity mapping of the four listeners. */
  lemma HandlerMapping(n: Notification)
    ensures n.ActiveTextEditorChanged? ==>
      (n.editor.None? <==> Handler(n).None?)
      && (n.editor.Some? ==> Handler(n) == Some(ActivityCall(EditorChange, DocumentData(n.editor.value))))
    ensures n.TextDocumentChanged? ==>
      Handler(n) == Some(ActivityCall(TextEdit, EditData(n.fileName, |n.contentChanges|)))
    ensures n.TextDocumentSaved? ==> Handler(n) == Some(ActivityCall(DocumentSave, DocumentData(n.fileName)))
    ensures n == WindowStateChanged(true) ==> Handler(n) == Some(ActivityCall(WindowFocus, NoData))
    ensures n == WindowStateChanged(false) ==> Handler(n) == Some(ActivityCall(WindowBlur, NoData))
  {
  }

  /** An editor change with no editor is dropped: the tracker does not change. */
  lemma NoEditorRecordsNothing(t: Tracker, now: int)
    ensures Notify(t, ActiveTextEditorChanged(None), now) == t
  {
  }

  /**
   * `dispose` logs `session_end`, calls `dispose()` on every listener in
   * `disposables`, in order, and leaves the idle state alone.
   */
  lemma DisposeEffects(t: Tracker, now: int)
    ensures var t' := Dispose(t, now);
      t'.log == t.log + [SessionEnd(now)]
      && t'.disposeCalls[|t.disposeCalls|..] == t.disposables
      && (forall l :: l in t.disposables ==> l in t'.disposeCalls)
      && t'.isIdle == t.isIdle && t'.lastActivity == t.lastActivity
      && t'.contextSubscriptions == t.contextSubscriptions
      && t'.disposables == t.disposables
      && t'.disposeCalls[..|t.disposeCalls|] == t.disposeCalls
  {
  }

  // ---------------------------------------------------------------------------
  // Properties of runs

  /**
   * One step of `QuietWindow`: from an active tracker, a step that is not a
   * tick past the threshold after `lastActivity` emits no idle marker and
   * leaves the tracker active.
   */
  lemma QuietStep(t: Tracker, s: Step)
    requires !t.isIdle
    requires s.Tick? ==> s.at - t.lastActivity <= IdleThresholdMs
    ensures var t' := Apply(t, s);
      !t'.isIdle && Markers(t'.log) == Markers(t.log)
  {
    match s
    case Start(now, version) =>
      assert Apply(t, s).log == t.log + [SessionStart(now, version)];
      MarkersSnoc(t.log, SessionStart(now, version));
    case Stop(now) =>
      assert Apply(t, s).log == t.log + [SessionEnd(now)];
      MarkersSnoc(t.log, SessionEnd(now));
    case Tick(now) =>
      assert Apply(t, s) == t;
    case Deliver(n, now) =>
      match Handler(n)
      case None =>
        assert Apply(t, s) == t;
      case Some(call) =>
        var a := Activity(call.subtype, now, call.data);
        assert Apply(t, s).log == t.log + [a];
        MarkersSnoc(t.log, a);
  }

  /**
   * The quiet window, sliding: as long as every tick comes at most the
   * threshold after the last activity at that moment, a run from an active
   * tracker emits no `idle_start` or `idle_end` and stays active, however
   * long it lasts.
   */
  lemma {:induction false} QuietWindow(t: Tracker, steps: seq<Step>)
    requires !t.isIdle
    requires forall i :: 0 <= i < |steps| && steps[i].Tick? ==>
      steps[i].at - Run(t, steps[..i]).lastActivity <= IdleThresholdMs
    ensures !Run(t, steps).isIdle && Markers(Run(t, steps).log) == Markers(t.log)
    decreases |steps|
  {
    if steps != [] {
      var init := steps[..|steps| - 1];
      forall i | 0 <= i < |init| && init[i].Tick?
        ensures init[i].at - Run(t, init[..i]).lastActivity <= IdleThresholdMs
      {
        assert init[i] == steps[i] && init[..i] == steps[..i];
      }
      QuietWindow(t, init);
      QuietStep(Run(t, init), steps[|steps| - 1]);
    }
  }

  /** Example: saves at 240 s and 480 s keep ticks at 420 s and 540 s quiet, past the first five minutes. */
  lemma QuietWindowSlides(file: string)
    ensures var steps := [Deliver(TextDocumentSaved(file), 240000), Tick(420000),
                          Deliver(TextDocumentSaved(file), 480000), Tick(540000)];
      !Run(Initial(0), steps).isIdle && Markers(Run(Initial(0), steps).log) == []
  {
    var steps := [Deliver(TextDocumentSaved(file), 240000), Tick(420000),
                  Deliver(TextDocumentSaved(file), 480000), Tick(540000)];
    var t := Initial(0);
    assert steps[..1] == [steps[0]] && steps[..2] == [steps[0], steps[1]];
    assert steps[..3] == [steps[0], steps[1], steps[2]];
    RunSnoc(t, [], steps[0]);
    assert [] + [steps[0]] == [steps[0]];
    RunSnoc(t, [steps[0]], steps[1]);
    assert [steps[0]] + [steps[1]] == [steps[0], steps[1]];
    RunSnoc(t, [steps[0], steps[1]], steps[2]);
    assert [steps[0], steps[1]] + [steps[2]] == [steps[0], steps[1], steps[2]];
    assert Run(t, steps[..1]).lastActivity == 240000;
    assert Run(t, steps[..3]).lastActivity == 480000;
    QuietWindow(t, steps);
  }

  /** The time of the first tick of the sequence strictly more than the threshold after `last`. */
  function FirstIdleTick(steps: seq<Step>, last: int): Option<int>
    decreases |steps|
  {
    if steps == [] then None
    else
      var earlier := FirstIdleTick(steps[..|steps| - 1], last);
      if earlier.Some? then earlier
      else if steps[|steps| - 1].at - last > IdleThresholdMs then Some(steps[|steps| - 1].at)
      else None
  }

  /**
   * From an active tracker, a run of bare ticks emits one `idle_start`, at
   * the first tick past the threshold, if there is one, and nothing else;
   * repeated ticks after it emit nothing.
   */
  lemma {:induction false} TicksEmitAtMostOneIdleStart(t: Tracker, steps: seq<Step>)
    requires !t.isIdle
    requires forall i :: 0 <= i < |steps| ==> steps[i].Tick?
    ensures Run(t, steps) ==
      match FirstIdleTick(steps, t.lastActivity)
      case None => t
      case Some(at) => t.(isIdle := true, log := t.log + [IdleStart(at, IdleThresholdMs)])
    decreases |steps|
  {
    if steps != [] {
      var init := steps[..|steps| - 1];
      assert forall i :: 0 <= i < |init| ==> init[i] == steps[i];
      TicksEmitAtMostOneIdleStart(t, init);
      assert steps[|steps| - 1].Tick?;
    }
  }

  lemma RunSnoc(t: Tracker, steps: seq<Step>, s: Step)
    ensures Run(t, steps + [s]) == Apply(Run(t, steps), s)
  {
    assert (steps + [s])[..|steps|] == steps;
  }

  /**
   * The end-to-end run: start at 0, save at 10 s, tick at 360 s, edit at
   * 400 s, dispose at 410 s. The `idle_end` reports 390000 ms, counted from the
   * save, not from the `idle_start`.
   */
  lemma SessionScenario(version: string, file: string, change: TextChange)
    ensures Run(Initial(0), [
        Start(0, version),
        Deliver(TextDocumentSaved(file), 10000),
        Tick(360000),
        Deliver(TextDocumentChanged(file, [change]), 400000),
        Stop(410000)]).log
      == [SessionStart(0, version),
          Activity(DocumentSave, 10000, DocumentData(file)),
          IdleStart(360000, 300000),
          IdleEnd(400000, 390000),
          Activity(TextEdit, 400000, EditData(file, 1)),
          SessionEnd(410000)]
  {
    var s0, s1, s2 := Start(0, version), Deliver(TextDocumentSaved(file), 10000), Tick(360000);
    var s3, s4 := Deliver(TextDocumentChanged(file, [change]), 400000), Stop(410000);
    var t := Initial(0);
    var save, edit := Activity(DocumentSave, 10000, DocumentData(file)), Activity(TextEdit, 400000, EditData(file, 1));
    var r1 := Apply(t, s0);
    assert r1.log == [SessionStart(0, version)] && !r1.isIdle && r1.lastActivity == 0;
    var r2 := Apply(r1, s1);
    assert r2.log == r1.log + [save] && !r2.isIdle && r2.lastActivity == 10000;
    var r3 := Apply(r2, s2);
    assert r3.log == r2.log + [IdleStart(360000, 300000)] && r3.isIdle && r3.lastActivity == 10000;
    var r4 := Apply(r3, s3);
    assert r4.log == r3.log + [IdleEnd(400000, 390000)] + [edit];
    var r5 := Apply(r4, s4);
    assert r5.log == r4.log + [SessionEnd(410000)];
    RunSnoc(t, [], s0);
    assert [] + [s0] == [s0];
    RunSnoc(t, [s0], s1);
    assert [s0] + [s1] == [s0, s1];
    RunSnoc(t, [s0, s1], s2);
    assert [s0, s1] + [s2] == [s0, s1, s2];
    RunSnoc(t, [s0, s1, s2], s3);
    assert [s0, s1, s2] + [s3] == [s0, s1, s2, s3];
    RunSnoc(t, [s0, s1, s2, s3], s4);
    assert [s0, s1, s2, s3] + [s4] == [s0, s1, s2, s3, s4];
    assert Run(t, [s0, s1, s2, s3, s4]) == r5;
  }
}
