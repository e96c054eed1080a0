# Activity tracker and event sink of the coding-activity VS Code extension

This project models two parts of the extension in Dafny and proves properties about them.

- **`EventTracker`** (`vscode-extention/src/eventTracker.ts`) is the activity/idle state machine.
  - It records a `session_start` event when tracking starts.
  - It turns editor notifications (active editor change, text edit, save, window focus or blur) into `activity` events.
  - A periodic tick emits `idle_start` once more than five minutes have passed since the last activity.
  - The next activity emits `idle_end`.
  - `dispose` records `session_end` and disposes the listeners.
- **The event sink** (`vscode-extention/src/utils.ts`) stores the events and reads them back.
  - `storeEvent` stamps each event with the sink's own time. It appends the event to the Firestore document of that day, keyed `YYYY-MM-DD`, and also to the local backup file of the same day. When the remote write throws, it appends to the local file only.
  - `getEventsInRange` concatenates the remote day documents of a date range. If any remote read throws, it falls back to `getEventsFromLocalBackup`.

## Files

| file | module | contents |
|---|---|---|
| `events.dfy` | `Events` | The event records; the idle markers of a log. |
| `date_keys.dfy` | `DateKeys` | The `YYYY-MM-DD` day key, its parser, and its round trip and shape lemmas. |
| `tracker_spec.dfy` | `TrackerSpec` | The tracker state as a value; one function per operation; runs of operations; the alternation invariant and the lemmas about it. |
| `event_tracker.dfy` | `EventTracking` | `class EventTracker`, with fields and methods. Each method is proved against its `TrackerSpec` function and keeps the idle-marker invariant. |
| `event_sink.dfy` | `EventSink` | The remote and local stores as maps; the write and read paths as functions; `class Stores`, whose methods carry the source's read-modify-write and its `while` loops, proved against those functions; and the lemmas. |

## How the model reads the source

- **Time.** Time is a millisecond `int` passed to every operation; each `Date.now()` becomes a parameter. The idle timer's callback is the explicit operation `IdleCheck(now)`.
- **Calls out of the tracker.** Each `storeEvent` call made by the tracker appends to a `log` field. Each listener registration is recorded as a `Listener` value in `disposables`. The two things pushed onto `context.subscriptions` are recorded in `contextSubscriptions`. The `dispose()` calls made on the listeners are recorded in `disposeCalls`.
- **Stores.** The remote collection is a map from day key to the document's `events` field. That field is absent or falsy, an array, or some other value on which `push` throws. The local backup directory is a map from day key to the file's content, which is either a list of events or text that does not parse as a JSON array.
- **Failures.** Every call that can throw is a boolean input:
  - `getOk` for `getDoc`;
  - `setOk` for `setDoc`;
  - `ioOk` for resolving the storage directory, reading an existing day file (utils.ts:87) and writing the file;
  - `dirOk` for resolving the storage directory on the read path;
  - the set `failing` for the days whose `getDoc` throws during a range read.
- **Clock readings in `storeEvent`.** `storeEvent` reads the clock once for the key and the stamp (an `Instant`: milliseconds plus the local calendar date). In its `catch` block it reads the clock a second time, `retry`, to choose the local file.
- **Date ranges.** A date range is a pair of day indices plus a function `keyOf` giving each day's key. The key itself is modelled separately over (year, month index, day).

Behaviour of the code that the model keeps:

- Events are stored in one remote document per day key, holding an `events` array (utils.ts:32, 42-53).
- `storeEvent` writes the local backup on the remote success path too (utils.ts:56), as well as in its `catch` block (utils.ts:66). `EventSink.RemoteSuccessAlsoWritesLocally` states this.
- `storeEvent` overwrites the event's `timestamp` with its own clock reading (utils.ts:35).
- `idle_end` reports the time since the last activity, not since the `idle_start` (eventTracker.ts:125). In the session start at 0 / save at 10 s / tick at 360 s / edit at 400 s / dispose at 410 s, it reports 390000 ms, and six events are logged.
- The idle timer's disposer goes onto `context.subscriptions` (eventTracker.ts:110-112), not onto `disposables`, so `dispose` (eventTracker.ts:155) does not stop the timer.
- `getEventsInRange` rejects when `getEventsFromLocalBackup` rejects (utils.ts:168, 179, 190). The directory lookup and `JSON.parse` there are not guarded by a `try`.

How the extension wires these together: `activate` (extension.ts:4-16) only constructs the tracker and starts it. Nothing in these files calls `setExtensionContext`, so `getExtensionContext` always throws (utils.ts:127-129). In the extension as it stands, `ioOk` and `dirOk` are therefore always false. No local backup is ever written, and `getEventsInRange` rejects whenever a remote read throws. Likewise `deactivate` (extension.ts:18-20) never calls `EventTracker.dispose`, so `session_end` is never logged. The model keeps these flags and `Dispose` free, so it covers the wired-up case as well.

## Model

| member | source | states |
|---|---|---|
| `EventTracking.EventTracker.constructor` | vscode-extention/src/eventTracker.ts:5-12 | A new tracker is not idle, its `lastActivity` is the creation time, nothing is registered or logged, and it satisfies the invariant. |
| `EventTracking.EventTracker.StartTracking` | vscode-extention/src/eventTracker.ts:14-25 | The new state is the session start, then the listener registrations, then the timer registration, in that order; the invariant is kept. |
| `EventTracking.EventTracker.RecordSessionStartEvent` | vscode-extention/src/eventTracker.ts:27-37 | Logs one `session_start` event with the time and the host version; nothing else changes, and the invariant is kept. |
| `EventTracking.EventTracker.MonitorEditorEvents` | vscode-extention/src/eventTracker.ts:39-87 | Appends the four editor listeners to `disposables` in source order and the close-document listener to the context's subscriptions; the invariant is kept. |
| `EventTracking.EventTracker.StartIdleCheck` | vscode-extention/src/eventTracker.ts:89-113 | Appends the interval's disposer to the context's subscriptions, not to `disposables`; the invariant is kept. |
| `EventTracking.EventTracker.IdleCheck` | vscode-extention/src/eventTracker.ts:91-106 | The interval callback: the new state is `TrackerSpec.IdleCheck` of the old one, and the alternation invariant is kept. |
| `EventTracking.EventTracker.RecordActivity` | vscode-extention/src/eventTracker.ts:115-143 | The new state is `TrackerSpec.RecordActivity` of the old one, and the alternation invariant is kept. |
| `EventTracking.EventTracker.Notify` | vscode-extention/src/eventTracker.ts:42-78 | Delivering a notification to its listener has the effect of `TrackerSpec.Notify`, and the invariant is kept. |
| `EventTracking.EventTracker.Dispose` | vscode-extention/src/eventTracker.ts:145-156 | Logs `session_end`, then calls `dispose()` on every entry of `disposables` in order (a loop); the idle state and subscriptions are unchanged. |
| `EventTracking.SessionScenario` | vscode-extention/src/eventTracker.ts:14-156 | Driving the class through start 0, save 10 s, tick 360 s, edit 400 s and dispose 410 s logs exactly six events, including `idle_end` with duration 390000. |
| `TrackerSpec.InitialConsistent` | vscode-extention/src/eventTracker.ts:5-6 | A freshly created tracker, not idle with an empty log, satisfies the alternation invariant. |
| `TrackerSpec.RecordActivityEmits` | vscode-extention/src/eventTracker.ts:115-143 | When idle, emits exactly `idle_end` then `activity`, with nothing between; otherwise only the `activity` event with the given subtype and data. Afterwards the tracker is not idle, `lastActivity` is `now`, and the listeners are untouched. |
| `TrackerSpec.IdleEndDuration` | vscode-extention/src/eventTracker.ts:121-132 | Under the invariant, an `idle_end` follows an open `idle_start`, and its duration (whose value `RecordActivityEmits` gives) exceeds the threshold when the clock has not gone back. |
| `TrackerSpec.IdleCheckEmits` | vscode-extention/src/eventTracker.ts:91-106 | The tick sets `isIdle` iff it was already set or strictly more than 300000 ms have passed. It emits one `idle_start` carrying the threshold exactly when active and over the threshold; otherwise it changes nothing. It never moves `lastActivity`. |
| `TrackerSpec.TickWhileIdle` | vscode-extention/src/eventTracker.ts:96 | Ticks while already idle change nothing and emit nothing. |
| `TrackerSpec.OnlyTickSetsIdle` | vscode-extention/src/eventTracker.ts:96-97 | Any step that turns `isIdle` on is a tick more than the threshold after the last activity. |
| `TrackerSpec.OnlyActivityClearsIdle` | vscode-extention/src/eventTracker.ts:119-120 | Any step that turns `isIdle` off is a notification that reaches `recordActivity`. |
| `TrackerSpec.IdleCheckKeepsConsistent` | vscode-extention/src/eventTracker.ts:96-106 | The tick preserves the invariant: idle markers alternate starting with `idle_start`, `isIdle` iff the last marker is `idle_start`, and an open `idle_start` carries the threshold and lies over it. |
| `TrackerSpec.RecordActivityKeepsConsistent` | vscode-extention/src/eventTracker.ts:119-142 | `recordActivity` preserves the same invariant. |
| `TrackerSpec.StepKeepsConsistent` | vscode-extention/src/eventTracker.ts:14-156 | Every operation (start, notification, tick, dispose) preserves the invariant. |
| `TrackerSpec.RunKeepsConsistent` | vscode-extention/src/eventTracker.ts:14-156 | Every sequence of operations from a consistent tracker ends consistent. |
| `TrackerSpec.RunExtendsLog` | vscode-extention/src/eventTracker.ts:36 | Operations only append to the log: the earlier log is a prefix of the later one. |
| `TrackerSpec.StartTrackingRegisters` | vscode-extention/src/eventTracker.ts:14-37 | On a new tracker, `session_start` with the host version is the first event, and exactly the four editor listeners go into `disposables`. |
| `TrackerSpec.HandlerMapping` | vscode-extention/src/eventTracker.ts:42-78 | No-editor changes record nothing (both directions). An editor change, edit or save records its document. An edit records `changes` as the number of content changes. Focus records `window_focus` and blur `window_blur`, both with no data. |
| `TrackerSpec.NoEditorRecordsNothing` | vscode-extention/src/eventTracker.ts:43 | An editor change without an editor leaves the tracker entirely unchanged. |
| `TrackerSpec.DisposeEffects` | vscode-extention/src/eventTracker.ts:145-156 | Logs exactly `session_end`, calls `dispose()` on all of `disposables` in order after the earlier calls, and leaves `disposables` (it is not cleared), `isIdle`, `lastActivity` and the subscriptions unchanged. |
| `TrackerSpec.QuietStep` | vscode-extention/src/eventTracker.ts:93-96 | From an active tracker, any step other than a tick more than the threshold after `lastActivity` emits no idle marker and leaves the tracker active. |
| `TrackerSpec.QuietWindow` | vscode-extention/src/eventTracker.ts:91-143 | Sliding window: a run from an active tracker in which every tick comes at most the threshold after the last activity at that moment emits no `idle_start` or `idle_end` and stays active, however long it lasts. |
| `TrackerSpec.QuietWindowSlides` | vscode-extention/src/eventTracker.ts:93-96 | Example: saves at 240 s and 480 s keep ticks at 420 s and 540 s quiet, so the window slides past the first five minutes. |
| `TrackerSpec.TicksEmitAtMostOneIdleStart` | vscode-extention/src/eventTracker.ts:91-107 | From an active tracker, a run of ticks emits one `idle_start`, at the first tick past the threshold, or nothing at all; later ticks emit nothing. |
| `TrackerSpec.RunSnoc` | vscode-extention/src/eventTracker.ts:14-156 | Running one more operation is applying it to the state the run reached. |
| `TrackerSpec.SessionScenario` | vscode-extention/src/eventTracker.ts:14-156 | The start / save / tick / edit / dispose session logs the six events listed, with `idle_start` at 360000 carrying 300000 and `idle_end` at 400000 reporting 390000. |
| `Events.MarkersSnoc` | vscode-extention/src/eventTracker.ts:105 | Appending an event adds it to the idle markers exactly when it is one. |
| `DateKeys.Decimal` | vscode-extention/src/utils.ts:32 | `toString()` of a natural number is non-empty decimal digits with no leading zero, and is one character iff the number is below 10. |
| `DateKeys.PadStart2` | vscode-extention/src/utils.ts:32 | `padStart(2, '0')` yields length max(2, original), ends with the original text, and pads only with '0'; it never truncates. |
| `DateKeys.ParseDecimalOfDecimal` | vscode-extention/src/utils.ts:32 | Reading the decimal digits back gives the number. |
| `DateKeys.ParseIntOfIntString` | vscode-extention/src/utils.ts:32 | Reading back the text of any integer, negative ones included, gives the integer. |
| `DateKeys.TwoDigits` | vscode-extention/src/utils.ts:32 | Every month number and day number pads to exactly two digits that read back to it. |
| `DateKeys.DateKeyRoundTrip` | vscode-extention/src/utils.ts:32 | Parsing the key of any valid date gives the date back: year, 0-based month and day. |
| `DateKeys.DateKeyInjective` | vscode-extention/src/utils.ts:65 | Two valid dates with the same key are the same date, so days never share a document or a file. |
| `DateKeys.DateKeyShape` | vscode-extention/src/utils.ts:73 | For a four-digit year the key has length 10, dashes at positions 4 and 7, and digits everywhere else (`YYYY-MM-DD`). |
| `DateKeys.NewYear2024Key` | vscode-extention/src/utils.ts:148 | 1 January 2024 (month index 0) is keyed "2024-01-01". |
| `EventSink.Stamp` | vscode-extention/src/utils.ts:31-35 | The stored event is the given one with its timestamp overwritten by the sink's own clock reading. |
| `EventSink.Stores.StoreEventLocally` | vscode-extention/src/utils.ts:75-98 | The local store becomes `LocalAppend` of the old one, and the remote store is untouched. |
| `EventSink.Stores.StoreEvent` | vscode-extention/src/utils.ts:28-68 | Both stores become `StoreEventState` of the old ones: stamp, remote read-append-write, local backup on the same day, or on the catch path the retry day. |
| `EventSink.Stores.GetEventsFromLocalBackup` | vscode-extention/src/utils.ts:178-199 | The day-by-day loop returns `LocalBackup`: rejected when storage fails or a file in range does not parse, otherwise the days from start to end inclusive concatenated. |
| `EventSink.Stores.GetEventsInRange` | vscode-extention/src/utils.ts:139-170 | The loop that stops at the first throwing read returns `EventsInRange`: the remote concatenation, or exactly the local backup's outcome. |
| `EventSink.LocalAppendAppends` | vscode-extention/src/utils.ts:75-98 | `storeEventLocally` makes the day's list the old list, or `[]`, with the event at the end, and leaves other days alone. On a storage, write or parse failure the store is unchanged. |
| `EventSink.StoreEventRemoteSuccess` | vscode-extention/src/utils.ts:42-56 | With remote success, the stamped event is appended once to the day document's `events`, no other document changes, and the same day's local file gets the same append. |
| `EventSink.StoreEventRemoteFailure` | vscode-extention/src/utils.ts:59-66 | When `getDoc`, the push or `setDoc` throws, the remote store is unchanged, and the stamped event is appended to the local file of the second clock reading's day. |
| `EventSink.StoreEventBacksUpOnce` | vscode-extention/src/utils.ts:29-67 | On both branches exactly one local append happens: the backup day's list grows by the stamped event and every other file is untouched. |
| `EventSink.RemoteSuccessAlsoWritesLocally` | vscode-extention/src/utils.ts:56 | A successful remote write also creates the day's local backup file. |
| `EventSink.RemoteRangeSplit` | vscode-extention/src/utils.ts:146-161 | The remote range result is the ascending-day concatenation: splitting the range splits the result. |
| `EventSink.LocalRangeSplit` | vscode-extention/src/utils.ts:183-196 | The same for the local backup files. |
| `EventSink.MissingDaysContributeNothing` | vscode-extention/src/utils.ts:188-192 | Days without a local file contribute nothing. |
| `EventSink.LocalRangeHasDay` | vscode-extention/src/utils.ts:183-196 | Each day's list appears in the result, after all earlier days' events and before all later days' events. |
| `EventSink.RangeNeverMerges` | vscode-extention/src/utils.ts:146-169 | With no throwing read, the result is the remote concatenation. With any throwing read, the partial result is dropped and the result is exactly the local backup's. |
| `EventSink.LocalBackupRejects` | vscode-extention/src/utils.ts:179-190 | The local read rejects iff the storage directory fails or some file in the range does not parse. |
| `EventSink.StoredEventIsRead` | vscode-extention/src/utils.ts:28-170 | Read after write: an event stored with a working remote turns up, stamped, at the end of a one-day read of its day. |
| `EventSink.OfflineDay` | vscode-extention/src/utils.ts:59-98 | With the remote failing on every call, three events stored on 1 January 2024 become exactly file `2024-01-01`, in order, and the remote store is unchanged. |

## Left out

- `vscode-extention/src/tsxPreview.ts` and `vscode-extention/src/extension.ts` are not part of this model. They are an HTTP server and webview, and command registration glue.
- Firebase initialisation and configuration (utils.ts:11-22) are left out. The Firestore API is reduced to a map whose calls can fail.
- `showErrorMessage` and `console` output are left out. They have no effect on state.
- The real clock, `setInterval`/`clearInterval` and the 60-second cadence are left out. Ticks are explicit calls with a time argument, so the model says nothing about how often they come.
- The VS Code event API itself is not modelled. `Notify` is the body of the listener that receives a notification. The model does not cover whether the host still delivers notifications after `dispose()`.
- The no-op `onDidCloseTextDocument` handler (eventTracker.ts:83-85) is only registered; it has no body to model.
- JSON serialisation and pretty-printing are left out. Every file whose `JSON.parse` does not give an array is treated as `Unparsable`. One case differs: when a backup file parses to a JSON string, `getEventsFromLocalBackup` spreads its characters into the result (utils.ts:191), which the model treats as an unparsable file.
- Calendar arithmetic of `Date.setDate` and the time-of-day comparison `currentDate <= endDate` (utils.ts:147, 184) are left out. Days are indices `start..end` inclusive, with a key function.
- The Firestore `Timestamp` type is left out. The stamp is the millisecond clock reading.
- `setDoc` with `merge: true` keeps a document's other fields. Only the `events` field is modelled.
- The `getExtensionContext` singleton and directory creation (utils.ts:104-131) are collapsed into the `ioOk` and `dirOk` flags.
- Concurrent `storeEvent` calls racing on the same day document are left out. The model is sequential.
- `EventSink.Stores.StoreEvent`: does not model the in-place mutation of the caller's event object's `timestamp`. The stamped copy is what gets stored.
