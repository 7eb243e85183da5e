/** The thread-scroll save/restore protocol: the position of each thread is saved while it is
    read and put back when the thread is ready again, unless the user scrolls first.

    The page is the environment. It supplies the session shown now, the metrics of the
    scroller, and the order in which timer callbacks run; a callback may run at any moment
    after it was scheduled, any number of times, even after `clearTimeout`. */
module ThreadScroll {
  import opened Wrappers
  import opened Recency

  const MAX_ENTRIES: nat := 120
  const RESTORE_WINDOW_MS: nat := 3200
  const USER_INTENT_WINDOW_MS: nat := 1200
  const NAVIGATION_DUPLICATE_MS: nat := 5000

  /** A session key after validation; the empty key stands for every invalid one. */
  type Key = string

  datatype Position = Position(top: real, scrollHeight: real, clientHeight: real)

  const NO_POSITION := Position(-1.0, -1.0, -1.0)

  datatype Scroller = Scroller(top: real, scrollHeight: real, clientHeight: real, reversed: bool)

  datatype Lock = Lock(session: Key, target: real, expiresAt: nat)

  datatype Navigation = Navigation(from: Key, target: Key, at: nat)

  datatype RestoreTimer = RestoreTimer(revision: nat, session: Key)

  datatype SyncTimer = SyncTimer(revision: nat, force: bool)

  /** One programmatic write of a scroll position by a restore. */
  datatype Write = Write(session: Key, top: real)

  datatype State = State(
    now: nat,
    enabled: bool,
    entries: Store<Position>,
    active: Key,
    last: Position,  // what was saved or restored last
    lock: Option<Lock>,
    navigation: Option<Navigation>,
    intentUntil: nat,
    cancelled: Key,
    restoreRevision: nat,
    syncRevision: nat,
    restoreTimers: set<RestoreTimer>,  // every restore callback scheduled so far
    syncTimers: set<SyncTimer>,        // every sync callback scheduled so far
    syncPending: Option<bool>,
    writes: seq<Write>)

  function Initial(entries: Store<Position>, now: nat, enabled: bool): State {
    State(now, enabled, entries, "", NO_POSITION, None, None, 0, "", 0, 0, {}, {}, None, [])
  }

  function NonNegative(x: real): real {
    if x >= 0.0 then x else 0.0
  }

  function Abs(x: real): real {
    if x >= 0.0 then x else -x
  }

  /** The requested top clamped to the scroller's range; a reversed scroller counts up to 0. */
  function TargetTop(scroller: Scroller, top: real): real {
    var extent := NonNegative(scroller.scrollHeight - scroller.clientHeight);
    var min := if scroller.reversed then -extent else 0.0;
    var max := if scroller.reversed then 0.0 else extent;
    if top > max then max else if top < min then min else top
  }

  function Snapshot(scroller: Scroller, top: real): Position {
    Position(top, NonNegative(scroller.scrollHeight), NonNegative(scroller.clientHeight))
  }

  predicate SamePlace(last: Position, p: Position) {
    Abs(last.top - p.top) < 2.0 && last.scrollHeight == p.scrollHeight && last.clientHeight == p.clientHeight
  }

  predicate IntentActive(s: State) {
    s.intentUntil > s.now
  }

  predicate CancelledFor(s: State, key: Key) {
    key != "" && s.cancelled == key
  }

  function LiveLock(s: State, key: Key): Option<Lock> {
    if s.lock.Some? && key != "" && s.lock.value.session == key && s.lock.value.expiresAt > s.now
    then s.lock else None
  }

  /** Asking for the lock of a session whose lock has expired drops it. */
  function DropExpired(s: State, key: Key): State {
    if s.lock.Some? && key != "" && s.lock.value.session == key && s.lock.value.expiresAt <= s.now
    then s.(lock := None) else s
  }

  function StartLock(s: State, entry: Entry<Position>): State {
    s.(lock := Some(Lock(entry.key, entry.value.top, s.now + RESTORE_WINDOW_MS)))
  }

  function PrepareLock(s: State, key: Key): State {
    var entry := if key != "" then Find(s.entries, key) else None;
    if entry.Some? then StartLock(s, entry.value) else s
  }

  function Save(s: State, key: Key, scroller: Option<Scroller>): State {
    if !s.enabled || key == "" || scroller.None? then s
    else
      var s1 := DropExpired(s, key);
      var p := Snapshot(scroller.value, scroller.value.top);
      if LiveLock(s, key).Some? || SamePlace(s.last, p) then s1
      else s1.(entries := Newest(Put(s.entries, Entry(key, p, s.now)), MAX_ENTRIES), last := p)
  }

  function Restore(s: State, key: Key, scroller: Option<Scroller>): State {
    if !s.enabled || key == "" || s.active != key || IntentActive(s) || CancelledFor(s, key) then s
    else
      var s1 := DropExpired(s, key);
      var lock := LiveLock(s, key);
      var entry := Find(s.entries, key);
      if (lock.None? && entry.None?) || scroller.None? then s1
      else
        var top := TargetTop(scroller.value, if lock.Some? then lock.value.target else entry.value.value.top);
        if Abs(scroller.value.top - top) <= 1.0 then s1
        else s1.(writes := s.writes + [Write(key, top)], last := Snapshot(scroller.value, top))
  }

  function ScheduleRestore(s: State, key: Key): State {
    if !s.enabled || key == "" || IntentActive(s) || CancelledFor(s, key) then s
    else
      var entry := Find(s.entries, key);
      if entry.None? then s.(lock := None)
      else
        StartLock(s, entry.value).(restoreRevision := s.restoreRevision + 1,
                                   restoreTimers := s.restoreTimers + {RestoreTimer(s.restoreRevision + 1, key)})
  }

  /** Make another session the active one; a cancellation lasts only if it was for that session. */
  function Activate(s: State, current: Key): State {
    s.(lock := None, active := current, last := NO_POSITION,
       navigation := None, intentUntil := 0,
       cancelled := if s.cancelled != current then "" else s.cancelled)
  }

  /** Bring the runtime in line with the session the page shows now. */
  function Sync(s: State, current: Key, force: bool): State {
    if current == "" then s
    else if !s.enabled then s.(lock := None, active := current)
    else if s.active != current then
      // The lock prepared before the scroller is looked up is dropped again here.
      ScheduleRestore(Activate(s, current), current)
    else if force && !IntentActive(s) && !CancelledFor(s, current) then ScheduleRestore(s, current)
    else s
  }

  function ScheduleSync(s: State, force: bool): State {
    if s.syncPending.Some? then s else s.(syncPending := Some(force))
  }

  function ScheduleSyncAttempts(s: State, current: Key, force: bool): State {
    var key := if current != "" then current else s.active;
    if IntentActive(s) || CancelledFor(s, key) then s
    else s.(syncRevision := s.syncRevision + 1,
            syncTimers := s.syncTimers + {SyncTimer(s.syncRevision + 1, force)})
  }

  /** Heading for a session other than the active one ends the user's hold on scrolling. */
  function Depart(s: State, target: Key): State {
    if target != "" && target != s.active then s.(intentUntil := 0, cancelled := "") else s
  }

  /** One click reaches the navigation handlers more than once. */
  predicate DuplicateNavigation(s: State, target: Key) {
    && target != "" && s.navigation.Some? && s.navigation.value.target == target
    && s.now - s.navigation.value.at < NAVIGATION_DUPLICATE_MS
  }

  function Announce(s: State, target: Key): State {
    if target == "" then s
    else PrepareLock(s.(navigation := Some(Navigation(s.active, target, s.now))), target)
  }

  function CaptureNavigation(s: State, target: Key, current: Key, scroller: Option<Scroller>): State {
    if !s.enabled then s
    else
      var s1 := Depart(s, target);
      var s2 := if DuplicateNavigation(s, target) then s1 else Save(s1, s1.active, scroller);
      ScheduleSyncAttempts(Announce(s2, target), current, true)
  }

  /** The session a user scroll is attributed to. */
  function CancelTarget(s: State, current: Key): Key {
    if s.lock.Some? && s.lock.value.session != "" then s.lock.value.session
    else if current != "" then current
    else s.active
  }

  function CancelForUserIntent(s: State, current: Key): State {
    if !s.enabled then s
    else s.(intentUntil := s.now + USER_INTENT_WINDOW_MS,
            cancelled := CancelTarget(s, current),
            restoreRevision := s.restoreRevision + 1,
            syncRevision := s.syncRevision + 1,
            lock := None)
  }

  /** The setting is kept by the backend: a change of it changes what the handlers see and nothing else. */
  function SetEnabled(s: State, enabled: bool): State {
    s.(enabled := enabled)
  }

  function FireRestore(s: State, t: RestoreTimer, scroller: Option<Scroller>): State {
    if s.restoreRevision != t.revision then s else Restore(s, t.session, scroller)
  }

  function FireSync(s: State, t: SyncTimer): State {
    if s.syncRevision != t.revision then s else ScheduleSync(s, t.force)
  }

  /** Everything that can happen to the protocol, with what the page supplies at that moment. */
  datatype Event =
    | Wait(ms: nat)
    | SaveNow(scroller: Option<Scroller>)
    | Navigate(target: Key, current: Key, scroller: Option<Scroller>)
    | UserScroll(current: Key)
    | RequestSync(force: bool)
    | PendingSync(current: Key)
    | RestoreCallback(restore: RestoreTimer, scroller: Option<Scroller>)
    | SyncCallback(sync: SyncTimer)
    | Toggle(enabled: bool)

  ghost predicate Enabled(s: State, e: Event) {
    match e
    case PendingSync(_) => s.syncPending.Some?
    case RestoreCallback(t, _) => t in s.restoreTimers
    case SyncCallback(t) => t in s.syncTimers
    case _ => true
  }

  function Step(s: State, e: Event): State {
    match e
    case Wait(ms) => s.(now := s.now + ms)
    case SaveNow(scroller) => Save(s, s.active, scroller)
    case Navigate(target, current, scroller) => CaptureNavigation(s, target, current, scroller)
    case UserScroll(current) => CancelForUserIntent(s, current)
    case RequestSync(force) => ScheduleSync(s, force)
    case PendingSync(current) =>
      if s.syncPending.Some? then Sync(s.(syncPending := None), current, s.syncPending.value) else s
    case RestoreCallback(t, scroller) => FireRestore(s, t, scroller)
    case SyncCallback(t) => FireSync(s, t)
    case Toggle(enabled) => SetEnabled(s, enabled)
  }

  ghost predicate IsRun(s: State, run: seq<Event>)
    decreases |run|
  {
    run == [] || (Enabled(s, run[0]) && IsRun(Step(s, run[0]), run[1..]))
  }

  function Run(s: State, run: seq<Event>): State
    decreases |run|
  {
    if run == [] then s else Run(Step(s, run[0]), run[1..])
  }
}
