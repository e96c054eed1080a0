/** The event records that the activity tracker emits and the sink stores. */
module Events {

  datatype Option<+T> = None | Some(value: T)

  /** The `subtype` of an `activity` event: which editor notification caused it. */
  datatype ActivityType = EditorChange | TextEdit | DocumentSave | WindowFocus | WindowBlur

  /** The `data` object handed to `recordActivity` by each notification handler. */
  datatype ActivityData =
    | DocumentData(document: string)                 // { document }
    | EditData(document: string, changes: nat)       // { document, changes }
    | NoData                                         // {}

  /**
   * One event, one constructor per `type` string. Every constructor has a
   * `timestamp` (milliseconds), so the sink can overwrite it with
   * `e.(timestamp := t)`.
   */
  datatype Event =
    | SessionStart(timestamp: int, vscodeVersion: string)                          // 'session_start'
    | SessionEnd(timestamp: int)                                                   // 'session_end', data {}
    | Activity(subtype: ActivityType, timestamp: int, data: ActivityData)          // 'activity'
    | IdleStart(timestamp: int, idleThreshold: int)                                // 'idle_start'
    | IdleEnd(timestamp: int, idleDuration: int)                                   // 'idle_end'

  /** An idle marker is an `idle_start` or an `idle_end` event. */
  predicate IsMarker(e: Event) {
    e.IdleStart? || e.IdleEnd?
  }

  /** The idle markers of a log, in log order. */
  function Markers(log: seq<Event>): (ms: seq<Event>)
    ensures |ms| <= |log|
    ensures forall i :: 0 <= i < |ms| ==> IsMarker(ms[i])
    ensures (forall i :: 0 <= i < |log| ==> !IsMarker(log[i])) ==> ms == []
  {
    if log == [] then []
    else Markers(log[..|log| - 1]) + (if IsMarker(log[|log| - 1]) then [log[|log| - 1]] else [])
  }

  /** Appending one event adds it to the markers exactly when it is one. */
  lemma MarkersSnoc(log: seq<Event>, e: Event)
    ensures Markers(log + [e]) == Markers(log) + (if IsMarker(e) then [e] else [])
  {
    assert (log + [e])[..|log|] == log;
  }
}
