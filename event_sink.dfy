/**
 * The event sink of utils.ts over two abstract stores: the remote collection
 * `coding-activity-events`, one document per day key, and the local backup
 * directory, one `<key>.json` file per day key. Each remote or file-system
 * call that can fail takes a success flag as input.
 */
module EventSink {
  import opened Events
  import opened DateKeys

  /** The `events` field of an existing day document. */
  datatype EventsField =
    | NoEvents                       // absent or falsy: `events || []` gives []
    | EventList(events: seq<Event>)  // an array
    | NotAList                       // some other truthy value: `events.push` throws

  /** A local day file's content: a JSON array of events, or text that does not parse as one. */
  datatype LocalFile = EventsFile(events: seq<Event>) | Unparsable

  /** A clock reading: milliseconds and the local calendar date at that moment. */
  datatype Instant = Instant(millis: int, date: CalendarDate)

  /** What an asynchronous read settles to: its events, or a rejection. */
  datatype Outcome = Returned(events: seq<Event>) | Rejected

  /** Both stores as a value. */
  datatype Backends = Backends(remote: map<string, EventsField>, local: map<string, LocalFile>)

  // ---------------------------------------------------------------------------
  // The write path

  /** The event with the sink's own time written over its timestamp. */
  function Stamp(e: Event, at: Instant): (stamped: Event)
    ensures stamped.timestamp == at.millis
    ensures stamped == e.(timestamp := at.millis)
  {
    e.(timestamp := at.millis)
  }

  /** The list `storeEvent` pushes onto: `[]` for a missing document or field; `None` when the push throws. */
  function ExistingRemote(remote: map<string, EventsField>, key: string): Option<seq<Event>> {
    if key !in remote then Some([])
    else match remote[key]
      case NoEvents => Some([])
      case EventList(es) => Some(es)
      case NotAList => None
  }

  /** The read-append-write of the day document; `None` when `getDoc`, the push or `setDoc` throws. */
  function RemoteAppend(remote: map<string, EventsField>, key: string, e: Event, getOk: bool, setOk: bool)
    : Option<map<string, EventsField>>
  {
    if !getOk then None
    else match ExistingRemote(remote, key)
      case None => None
      case Some(es) => if setOk then Some(remote[key := EventList(es + [e])]) else None
  }

  /** `storeEventLocally`: the day file after appending `e`; any failure leaves the directory as it was. */
  function LocalAppend(local: map<string, LocalFile>, key: string, e: Event, ioOk: bool): map<string, LocalFile> {
    if !ioOk then local
    else if key !in local then local[key := EventsFile([e])]
    else match local[key]
      case EventsFile(es) => local[key := EventsFile(es + [e])]
      case Unparsable => local
  }

  /**
   * `storeEvent`: stamp the event with the time `at`, try the remote write for
   * the day of `at`, then back the event up locally, on the day of `at` when
   * the remote write succeeded and on the day of the clock reading `retry`
   * taken in the catch block otherwise.
   */
  function StoreEventState(b: Backends, e: Event, at: Instant, retry: Instant, getOk: bool, setOk: bool, ioOk: bool)
    : Backends
    requires ValidDate(at.date) && ValidDate(retry.date)
  {
    var stamped := Stamp(e, at);
    match RemoteAppend(b.remote, DateKey(at.date), stamped, getOk, setOk)
    case Some(remote') => Backends(remote', LocalAppend(b.local, DateKey(at.date), stamped, ioOk))
    case None => Backends(b.remote, LocalAppend(b.local, DateKey(retry.date), stamped, ioOk))
  }

  /** The day whose local file `storeEvent` appends to. */
  function BackupKey(b: Backends, at: Instant, retry: Instant, getOk: bool, setOk: bool): string
    requires ValidDate(at.date) && ValidDate(retry.date)
  {
    if getOk && setOk && ExistingRemote(b.remote, DateKey(at.date)).Some? then DateKey(at.date) else DateKey(retry.date)
  }

  // ---------------------------------------------------------------------------
  // The read path, over day indices `lo <= d < hi` and a key for each day

  /** A day document's contribution to `getEventsInRange`: its `events` when that is an array. */
  function RemoteDay(remote: map<string, EventsField>, key: string): seq<Event> {
    if key in remote && remote[key].EventList? then remote[key].events else []
  }

  /** The remote documents of days `lo` to `hi - 1`, concatenated in ascending day order. */
  function RemoteRange(remote: map<string, EventsField>, keyOf: int -> string, lo: int, hi: int): seq<Event>
    decreases hi - lo
  {
    if hi <= lo then [] else RemoteRange(remote, keyOf, lo, hi - 1) + RemoteDay(remote, keyOf(hi - 1))
  }

  /** A local file's contribution to `getEventsFromLocalBackup`: its events; a missing file gives none. */
  function LocalDay(local: map<string, LocalFile>, key: string): seq<Event> {
    if key in local && local[key].EventsFile? then local[key].events else []
  }

  /** The local files of days `lo` to `hi - 1`, concatenated in ascending day order. */
  function LocalRange(local: map<string, LocalFile>, keyOf: int -> string, lo: int, hi: int): seq<Event>
    decreases hi - lo
  {
    if hi <= lo then [] else LocalRange(local, keyOf, lo, hi - 1) + LocalDay(local, keyOf(hi - 1))
  }

  /** No file among days `lo` to `hi - 1` fails to parse. */
  predicate LocalReadable(local: map<string, LocalFile>, keyOf: int -> string, lo: int, hi: int) {
    forall d :: lo <= d < hi && keyOf(d) in local ==> local[keyOf(d)].EventsFile?
  }

  /**
   * `getEventsFromLocalBackup(start, end)`: rejected when the storage
   * directory cannot be resolved or a file in the range does not parse;
   * otherwise the concatenation of the days `start` to `end` inclusive.
   */
  function LocalBackup(local: map<string, LocalFile>, keyOf: int -> string, start: int, end: int, dirOk: bool): Outcome {
    if dirOk && LocalReadable(local, keyOf, start, end + 1)
    then Returned(LocalRange(local, keyOf, start, end + 1))
    else Rejected
  }

  /**
   * `getEventsInRange(start, end)`: when no remote read in the range throws,
   * the remote days concatenated; otherwise exactly the local backup's
   * outcome. `failing` is the set of days whose `getDoc` throws.
   */
  function EventsInRange(b: Backends, keyOf: int -> string, start: int, end: int, failing: set<int>, dirOk: bool)
    : Outcome
  {
    if exists d :: start <= d <= end && d in failing
    then LocalBackup(b.local, keyOf, start, end, dirOk)
    else Returned(RemoteRange(b.remote, keyOf, start, end + 1))
  }

  // ---------------------------------------------------------------------------
  // The stores as mutable state

  class Stores {
    var remote: map<string, EventsField>
    var local: map<string, LocalFile>

    function Snapshot(): Backends
      reads this
    {
      Backends(remote, local)
    }

    constructor (remote: map<string, EventsField>, local: map<string, LocalFile>)
      ensures Snapshot() == Backends(remote, local)
    {
      this.remote := remote;
      this.local := local;
    }

    /** `storeEventLocally(event, dateString)`: never throws; `ioOk` is false when the directory or the write fails. */
    method StoreEventLocally(event: Event, dateString: string, ioOk: bool)
      modifies this
      ensures local == LocalAppend(old(local), dateString, event, ioOk) && remote == old(remote)
    {
      if !ioOk {
        return;
      }
      var events: seq<Event> := [];
      if dateString in local {
        match local[dateString]
        case Unparsable =>
          return;
        case EventsFile(es) =>
          events := es;
      }
      events := events + [event];
      assert dateString !in local ==> events == [event];
      local := local[dateString := EventsFile(events)];
    }

    /** `storeEvent(event)`: never throws. The clock is read at `at`, and again at `retry` in the catch block. */
    method StoreEvent(event: Event, at: Instant, retry: Instant, getOk: bool, setOk: bool, ioOk: bool)
      requires ValidDate(at.date) && ValidDate(retry.date)
      modifies this
      ensures Snapshot() == StoreEventState(old(Snapshot()), event, at, retry, getOk, setOk, ioOk)
    {
      var dateString := DateKey(at.date);
      var stamped := event.(timestamp := at.millis);
      var threw := false;
      if !getOk {
        threw := true;
      } else {
        var events: seq<Event> := [];
        if dateString in remote {
          match remote[dateString]
          case NoEvents =>
          case EventList(es) =>
            events := es;
          case NotAList =>
            threw := true;
        }
        if !threw {
          events := events + [stamped];
          if !setOk {
            threw := true;
          } else {
            remote := remote[dateString := EventList(events)];
            StoreEventLocally(stamped, dateString, ioOk);
          }
        }
      }
      if threw {
        StoreEventLocally(stamped, DateKey(retry.date), ioOk);
      }
    }

    /** `getEventsFromLocalBackup(start, end)`, walking the days `start` to `end` inclusive. */
    method GetEventsFromLocalBackup(start: int, end: int, keyOf: int -> string, dirOk: bool) returns (r: Outcome)
      ensures r == LocalBackup(local, keyOf, start, end, dirOk)
    {
      if !dirOk {
        return Rejected;
      }
      var result: seq<Event> := [];
      var current := start;
      while current <= end
        invariant start <= current && (current <= end + 1 || current == start)
        invariant result == LocalRange(local, keyOf, start, current)
        invariant LocalReadable(local, keyOf, start, current)
        decreases end + 1 - current
      {
        var fileName := keyOf(current);
        if fileName in local {
          match local[fileName]
          case Unparsable =>
            assert !LocalReadable(local, keyOf, start, end + 1);
            return Rejected;
          case EventsFile(events) =>
            result := result + events;
        }
        current := current + 1;
      }
      return Returned(result);
    }

    /** `getEventsInRange(start, end)`; `failing` holds the days whose remote read throws. */
    method GetEventsInRange(start: int, end: int, keyOf: int -> string, failing: set<int>, dirOk: bool)
      returns (r: Outcome)
      ensures r == EventsInRange(Snapshot(), keyOf, start, end, failing, dirOk)
    {
      var result: seq<Event> := [];
      var current := start;
      var threw := false;
      while current <= end
        invariant start <= current && (current <= end + 1 || current == start)
        invariant result == RemoteRange(remote, keyOf, start, current)
        invariant forall d :: start <= d < current ==> d !in failing
        decreases end + 1 - current
      {
        if current in failing {
          threw := true;
          break;
        }
        var dateString := keyOf(current);
        if dateString in remote && remote[dateString].EventList? {
          result := result + remote[dateString].events;
        }
        current := current + 1;
      }
      if threw {
        r := GetEventsFromLocalBackup(start, end, keyOf, dirOk);
      } else {
        r := Returned(result);
      }
    }
  }

  // ---------------------------------------------------------------------------
  // Properties of the write path

  /**
   * `storeEventLocally` appends the event at the end of the day's list (an
   * empty list for a new file) and touches no other day; when it fails
   * (storage or write error, or an unparsable file) nothing changes.
   */
  lemma LocalAppendAppends(local: map<string, LocalFile>, key: string, e: Event, ioOk: bool)
    ensures var local' := LocalAppend(local, key, e, ioOk);
      (forall k :: k != key ==> (k in local' <==> k in local) && (k in local ==> local'[k] == local[k]))
      && (ioOk && (key in local ==> local[key].EventsFile?)
          ==> key in local' && local'[key].EventsFile? && LocalDay(local', key) == LocalDay(local, key) + [e])
      && (!ioOk || (key in local && local[key].Unparsable?) ==> local' == local)
  {
  }

  /**
   * With a successful remote write, `storeEvent` appends the stamped event
   * once to the day document's list and once to the same day's local file;
   * no other document changes.
   */
  lemma StoreEventRemoteSuccess(b: Backends, e: Event, at: Instant, retry: Instant, ioOk: bool)
    requires ValidDate(at.date) && ValidDate(retry.date)
    requires ExistingRemote(b.remote, DateKey(at.date)).Some?
    ensures var key := DateKey(at.date);
      var b' := StoreEventState(b, e, at, retry, true, true, ioOk);
      key in b'.remote && b'.remote[key].EventList?
      && RemoteDay(b'.remote, key) == RemoteDay(b.remote, key) + [Stamp(e, at)]
      && (forall k :: k != key ==> (k in b'.remote <==> k in b.remote) && (k in b.remote ==> b'.remote[k] == b.remote[k]))
      && b'.local == LocalAppend(b.local, key, Stamp(e, at), ioOk)
  {
  }

  /**
   * When `getDoc`, the push or `setDoc` throws, the remote store is left as
   * it was and the stamped event goes to the local file of the day of the
   * second clock reading.
   */
  lemma StoreEventRemoteFailure(b: Backends, e: Event, at: Instant, retry: Instant, getOk: bool, setOk: bool, ioOk: bool)
    requires ValidDate(at.date) && ValidDate(retry.date)
    requires !getOk || !setOk || ExistingRemote(b.remote, DateKey(at.date)).None?
    ensures var b' := StoreEventState(b, e, at, retry, getOk, setOk, ioOk);
      b'.remote == b.remote && b'.local == LocalAppend(b.local, DateKey(retry.date), Stamp(e, at), ioOk)
  {
  }

  /**
   * On either branch, `storeEvent` makes exactly one local append: the
   * backup day's list grows by the single stamped event when the local
   * write can succeed, and every other local file is untouched.
   */
  lemma StoreEventBacksUpOnce(b: Backends, e: Event, at: Instant, retry: Instant, getOk: bool, setOk: bool, ioOk: bool)
    requires ValidDate(at.date) && ValidDate(retry.date)
    ensures var key := BackupKey(b, at, retry, getOk, setOk);
      var local' := StoreEventState(b, e, at, retry, getOk, setOk, ioOk).local;
      (forall k :: k != key ==> (k in local' <==> k in b.local) && (k in b.local ==> local'[k] == b.local[k]))
      && (ioOk && (key in b.local ==> b.local[key].EventsFile?)
          ==> LocalDay(local', key) == LocalDay(b.local, key) + [Stamp(e, at)])
  {
    var key := BackupKey(b, at, retry, getOk, setOk);
    assert StoreEventState(b, e, at, retry, getOk, setOk, ioOk).local == LocalAppend(b.local, key, Stamp(e, at), ioOk);
    LocalAppendAppends(b.local, key, Stamp(e, at), ioOk);
  }

  /**
   * A remote write that succeeds still creates the day's local backup file:
   * the local store is written on the success path too.
   */
  lemma RemoteSuccessAlsoWritesLocally(b: Backends, e: Event, at: Instant, retry: Instant)
    requires ValidDate(at.date) && ValidDate(retry.date)
    requires ExistingRemote(b.remote, DateKey(at.date)).Some? && DateKey(at.date) !in b.local
    ensures StoreEventState(b, e, at, retry, true, true, true).local != b.local
  {
    var key := DateKey(at.date);
    assert key in StoreEventState(b, e, at, retry, true, true, true).local;
  }

  // ---------------------------------------------------------------------------
  // Properties of the read path

  /** Ranges concatenate in ascending day order: splitting a range splits its result. */
  lemma {:induction false} RemoteRangeSplit(remote: map<string, EventsField>, keyOf: int -> string, lo: int, mid: int, hi: int)
    requires lo <= mid <= hi
    ensures RemoteRange(remote, keyOf, lo, hi) == RemoteRange(remote, keyOf, lo, mid) + RemoteRange(remote, keyOf, mid, hi)
    decreases hi - mid
  {
    if mid < hi {
      RemoteRangeSplit(remote, keyOf, lo, mid, hi - 1);
    }
  }

  lemma {:induction false} LocalRangeSplit(local: map<string, LocalFile>, keyOf: int -> string, lo: int, mid: int, hi: int)
    requires lo <= mid <= hi
    ensures LocalRange(local, keyOf, lo, hi) == LocalRange(local, keyOf, lo, mid) + LocalRange(local, keyOf, mid, hi)
    decreases hi - mid
  {
    if mid < hi {
      LocalRangeSplit(local, keyOf, lo, mid, hi - 1);
    }
  }

  /** Days without a local file contribute nothing. */
  lemma {:induction false} MissingDaysContributeNothing(local: map<string, LocalFile>, keyOf: int -> string, lo: int, hi: int)
    requires forall d :: lo <= d < hi ==> keyOf(d) !in local
    ensures LocalRange(local, keyOf, lo, hi) == []
    decreases hi - lo
  {
    if lo < hi {
      MissingDaysContributeNothing(local, keyOf, lo, hi - 1);
    }
  }

  /**
   * Each event of a day's list appears in the range's result, at the
   * position after all earlier days' events.
   */
  lemma LocalRangeHasDay(local: map<string, LocalFile>, keyOf: int -> string, lo: int, d: int, hi: int)
    requires lo <= d < hi
    ensures LocalRange(local, keyOf, lo, hi)
         == LocalRange(local, keyOf, lo, d) + LocalDay(local, keyOf(d)) + LocalRange(local, keyOf, d + 1, hi)
  {
    LocalRangeSplit(local, keyOf, lo, d, hi);
    LocalRangeSplit(local, keyOf, d, d + 1, hi);
    assert LocalRange(local, keyOf, d, d + 1) == LocalDay(local, keyOf(d)) by {
      assert LocalRange(local, keyOf, d, d) == [];
    }
  }

  /**
   * `getEventsInRange` never merges the sources: the result is either the
   * remote concatenation (no read threw) or exactly the local backup's.
   */
  lemma RangeNeverMerges(b: Backends, keyOf: int -> string, start: int, end: int, failing: set<int>, dirOk: bool)
    ensures (forall d :: start <= d <= end ==> d !in failing)
      ==> EventsInRange(b, keyOf, start, end, failing, dirOk) == Returned(RemoteRange(b.remote, keyOf, start, end + 1))
    ensures (exists d :: start <= d <= end && d in failing)
      ==> EventsInRange(b, keyOf, start, end, failing, dirOk) == LocalBackup(b.local, keyOf, start, end, dirOk)
  {
  }

  /** The local backup read is rejected exactly when storage fails or some day's file in the range does not parse. */
  lemma LocalBackupRejects(local: map<string, LocalFile>, keyOf: int -> string, start: int, end: int, dirOk: bool)
    ensures LocalBackup(local, keyOf, start, end, dirOk).Rejected?
      <==> !dirOk || exists d :: start <= d <= end && keyOf(d) in local && local[keyOf(d)].Unparsable?
  {
  }

  /**
   * Read after write: an event stored with a working remote store is the
   * last event of a one-day remote read of its day.
   */
  lemma StoredEventIsRead(b: Backends, e: Event, at: Instant, retry: Instant, ioOk: bool, keyOf: int -> string, d: int)
    requires ValidDate(at.date) && ValidDate(retry.date)
    requires ExistingRemote(b.remote, DateKey(at.date)).Some? && keyOf(d) == DateKey(at.date)
    ensures var b' := StoreEventState(b, e, at, retry, true, true, ioOk);
      EventsInRange(b', keyOf, d, d, {}, true) == Returned(RemoteRange(b.remote, keyOf, d, d + 1) + [Stamp(e, at)])
  {
    StoreEventRemoteSuccess(b, e, at, retry, ioOk);
    var b' := StoreEventState(b, e, at, retry, true, true, ioOk);
    assert RemoteRange(b'.remote, keyOf, d, d + 1) == RemoteDay(b'.remote, keyOf(d));
    assert RemoteRange(b.remote, keyOf, d, d + 1) == RemoteDay(b.remote, keyOf(d));
  }

  /**
   * With the remote store failing on every call, three events stored on
   * 1 January 2024 are exactly the contents of file 2024-01-01, in order.
   */
  lemma OfflineDay(remote: map<string, EventsField>, e1: Event, e2: Event, e3: Event, t1: int, t2: int, t3: int)
    ensures var day := CalendarDate(2024, 0, 1);
      var i1, i2, i3 := Instant(t1, day), Instant(t2, day), Instant(t3, day);
      var b1 := StoreEventState(Backends(remote, map[]), e1, i1, i1, false, false, true);
      var b2 := StoreEventState(b1, e2, i2, i2, false, false, true);
      var b3 := StoreEventState(b2, e3, i3, i3, false, false, true);
      b3.remote == remote
      && b3.local == map["2024-01-01" := EventsFile([Stamp(e1, i1), Stamp(e2, i2), Stamp(e3, i3)])]
  {
    var day := CalendarDate(2024, 0, 1);
    var i1, i2, i3 := Instant(t1, day), Instant(t2, day), Instant(t3, day);
    var key := DateKey(day);
    NewYear2024Key();
    var b1 := StoreEventState(Backends(remote, map[]), e1, i1, i1, false, false, true);
    assert b1 == Backends(remote, map[key := EventsFile([Stamp(e1, i1)])]);
    var b2 := StoreEventState(b1, e2, i2, i2, false, false, true);
    assert b2 == Backends(remote, map[key := EventsFile([Stamp(e1, i1)] + [Stamp(e2, i2)])]);
    assert [Stamp(e1, i1)] + [Stamp(e2, i2)] == [Stamp(e1, i1), Stamp(e2, i2)];
    var b3 := StoreEventState(b2, e3, i3, i3, false, false, true);
    assert [Stamp(e1, i1), Stamp(e2, i2)] + [Stamp(e3, i3)] == [Stamp(e1, i1), Stamp(e2, i2), Stamp(e3, i3)];
    assert b3 == Backends(remote, map[key := EventsFile([Stamp(e1, i1), Stamp(e2, i2)] + [Stamp(e3, i3)])]);
  }
}
