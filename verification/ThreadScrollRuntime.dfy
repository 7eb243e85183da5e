/** The thread-scroll runtime as the page keeps it: one object whose fields the handlers update.
    Every handler is proved to carry out the protocol step of the same name in `ThreadScroll`. */
module ThreadScrollRuntime {
  import opened Wrappers
  import opened Recency
  import P = ThreadScroll
  import L = ThreadScrollLaws

  class Runtime {
    var now: nat
    var enabled: bool
    var entries: Store<P.Position>
    var active: P.Key
    var last: P.Position
    var lock: Option<P.Lock>
    var navigation: Option<P.Navigation>
    var intentUntil: nat
    var cancelled: P.Key
    var restoreRevision: nat
    var syncRevision: nat
    var restoreTimers: set<P.RestoreTimer>
    var syncTimers: set<P.SyncTimer>
    var syncPending: Option<bool>
    var writes: seq<P.Write>

    ghost function Model(): P.State
      reads this
    {
      P.State(now, enabled, entries, active, last, lock, navigation, intentUntil,
              cancelled, restoreRevision, syncRevision, restoreTimers, syncTimers, syncPending, writes)
    }

    constructor (entries: Store<P.Position>, now: nat, enabled: bool)
      requires UniqueKeys(entries)
      ensures Model() == P.Initial(entries, now, enabled) && L.Inv(Model())
    {
      this.now, this.enabled, this.entries := now, enabled, entries;
      active, lock, navigation, intentUntil, cancelled := "", None, None, 0, "";
      last := P.NO_POSITION;
      restoreRevision, syncRevision, restoreTimers, syncTimers, syncPending, writes := 0, 0, {}, {}, None, [];
      new;
      L.InitialInv(entries, now, enabled);
    }

    /** The lock of a session if it is live; an expired one is forgotten on the way. */
    method ActiveLock(key: P.Key) returns (live: Option<P.Lock>)
      modifies this`lock
      ensures live == P.LiveLock(old(Model()), key)
      ensures Model() == P.DropExpired(old(Model()), key)
    {
      if lock.None? || key == "" || lock.value.session != key {
        return None;
      }
      if lock.value.expiresAt <= now {
        lock := None;
        return None;
      }
      live := lock;
    }

    method SaveNow(key: P.Key, scroller: Option<P.Scroller>)
      modifies this
      ensures Model() == P.Save(old(Model()), key, scroller)
    {
      if !enabled { return; }
      if key == "" || scroller.None? { return; }
      var live := ActiveLock(key);
      if live.Some? { return; }
      var snapshot := P.Snapshot(scroller.value, scroller.value.top);
      if P.SamePlace(last, snapshot) { return; }
      entries := Newest(Put(entries, Entry(key, snapshot, now)), P.MAX_ENTRIES);
      last := snapshot;
    }

    method PrepareLock(key: P.Key)
      modifies this`lock
      ensures Model() == P.PrepareLock(old(Model()), key)
    {
      var entry := if key != "" then Find(entries, key) else None;
      if entry.Some? {
        lock := Some(P.Lock(entry.value.key, entry.value.value.top, now + P.RESTORE_WINDOW_MS));
      }
    }

    method RestorePosition(key: P.Key, scroller: Option<P.Scroller>)
      modifies this
      ensures Model() == P.Restore(old(Model()), key, scroller)
    {
      if !enabled || key == "" || active != key || intentUntil > now || cancelled == key { return; }
      var live := ActiveLock(key);
      var entry := Find(entries, key);
      if live.None? && entry.None? { return; }
      if scroller.None? { return; }
      var target := P.TargetTop(scroller.value, if live.Some? then live.value.target else entry.value.value.top);
      if P.Abs(scroller.value.top - target) <= 1.0 { return; }
      writes := writes + [P.Write(key, target)];
      last := P.Snapshot(scroller.value, target);
    }

    method ScheduleRestore(key: P.Key)
      modifies this
      ensures Model() == P.ScheduleRestore(old(Model()), key)
    {
      if !enabled || key == "" || intentUntil > now || cancelled == key { return; }
      var entry := Find(entries, key);
      if entry.None? {
        lock := None;
        return;
      }
      lock := Some(P.Lock(entry.value.key, entry.value.value.top, now + P.RESTORE_WINDOW_MS));
      restoreRevision := restoreRevision + 1;
      restoreTimers := restoreTimers + {P.RestoreTimer(restoreRevision, key)};
    }

    method Activate(current: P.Key)
      modifies this
      ensures Model() == P.Activate(old(Model()), current)
    {
      last := P.NO_POSITION;
      lock := None;
      active := current;
      navigation := None;
      intentUntil := 0;
      if cancelled != current { cancelled := ""; }
    }

    method Sync(current: P.Key, force: bool)
      modifies this
      ensures Model() == P.Sync(old(Model()), current, force)
    {
      if current == "" { return; }
      if !enabled {
        lock := None;
        active := current;
        return;
      }
      if active != current {
        PrepareLock(current);
        Activate(current);
        ScheduleRestore(current);
        return;
      }
      if force && intentUntil <= now && cancelled != current {
        ScheduleRestore(current);
      }
    }

    method ScheduleSync(force: bool)
      modifies this`syncPending
      ensures Model() == P.ScheduleSync(old(Model()), force)
    {
      if syncPending.Some? { return; }
      syncPending := Some(force);
    }

    method ScheduleSyncAttempts(current: P.Key, force: bool)
      modifies this`syncRevision, this`syncTimers
      ensures Model() == P.ScheduleSyncAttempts(old(Model()), current, force)
    {
      var key := if current != "" then current else active;
      if intentUntil > now || (key != "" && cancelled == key) { return; }
      syncRevision := syncRevision + 1;
      syncTimers := syncTimers + {P.SyncTimer(syncRevision, force)};
    }

    method Depart(target: P.Key)
      modifies this`intentUntil, this`cancelled
      ensures Model() == P.Depart(old(Model()), target)
    {
      if target != "" && target != active {
        intentUntil := 0;
        cancelled := "";
      }
    }

    method Announce(target: P.Key)
      modifies this`navigation, this`lock
      ensures Model() == P.Announce(old(Model()), target)
    {
      if target != "" {
        navigation := Some(P.Navigation(active, target, now));
        PrepareLock(target);
      }
    }

    method CaptureNavigation(target: P.Key, current: P.Key, scroller: Option<P.Scroller>)
      modifies this
      ensures Model() == P.CaptureNavigation(old(Model()), target, current, scroller)
    {
      if !enabled { return; }
      Depart(target);
      var duplicate := target != "" && navigation.Some? && navigation.value.target == target
                       && now - navigation.value.at < P.NAVIGATION_DUPLICATE_MS;
      if !duplicate {
        SaveNow(active, scroller);
      }
      Announce(target);
      ScheduleSyncAttempts(current, true);
    }

    method CancelForUserIntent(current: P.Key)
      modifies this
      ensures Model() == P.CancelForUserIntent(old(Model()), current)
    {
      if !enabled { return; }
      var session := if lock.Some? && lock.value.session != "" then lock.value.session
                     else if current != "" then current else active;
      intentUntil := now + P.USER_INTENT_WINDOW_MS;
      cancelled := session;
      restoreRevision := restoreRevision + 1;
      syncRevision := syncRevision + 1;
      lock := None;
    }

    method SetEnabled(value: bool)
      modifies this`enabled
      ensures Model() == P.SetEnabled(old(Model()), value)
    {
      enabled := value;
    }

    /** One event of the page, dispatched to its handler; the invariant of the protocol is kept. */
    method Handle(e: P.Event)
      requires L.Inv(Model())
      modifies this
      ensures Model() == P.Step(old(Model()), e) && L.Inv(Model())
    {
      L.StepKeepsInv(Model(), e);
      match e {
        case Wait(ms) => now := now + ms;
        case SaveNow(scroller) => SaveNow(active, scroller);
        case Navigate(target, current, scroller) => CaptureNavigation(target, current, scroller);
        case UserScroll(current) => CancelForUserIntent(current);
        case RequestSync(force) => ScheduleSync(force);
        case PendingSync(current) =>
          if syncPending.Some? {
            var force := syncPending.value;
            syncPending := None;
            Sync(current, force);
          }
        case RestoreCallback(t, scroller) =>
          if restoreRevision == t.revision { RestorePosition(t.session, scroller); }
        case SyncCallback(t) =>
          if syncRevision == t.revision { ScheduleSync(t.force); }
        case Toggle(value) => SetEnabled(value);
      }
    }
  }
}
