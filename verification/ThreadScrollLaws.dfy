/** What the thread-scroll protocol keeps over every run, and what a user scroll stops. */
module ThreadScrollLaws {
  import opened Wrappers
  import opened Recency
  import opened ThreadScroll

  // ---- What every reachable state satisfies ----

  /** A live lock and the stored entry of its session name the same position. */
  ghost predicate LockMatchesEntry(s: State) {
    forall key :: LiveLock(s, key).Some? && Find(s.entries, key).Some?
                  ==> LiveLock(s, key).value.target == Find(s.entries, key).value.value.top
  }

  ghost predicate Inv(s: State) {
    && UniqueKeys(s.entries)
    && LockMatchesEntry(s)
    && (s.lock.Some? ==> s.lock.value.session != "")
    && (forall t :: t in s.restoreTimers ==> t.revision <= s.restoreRevision)
    && (forall t :: t in s.syncTimers ==> t.revision <= s.syncRevision)
  }

  lemma FindKey(es: Store<Position>, key: string)
    ensures Find(es, key).Some? ==> Find(es, key).value.key == key
  {
  }

  lemma StartLockKeepsInv(s: State, key: Key)
    requires Inv(s) && key != "" && Find(s.entries, key).Some?
    ensures Inv(StartLock(s, Find(s.entries, key).value))
  {
    FindKey(s.entries, key);
  }

  lemma PrepareLockKeepsInv(s: State, key: Key)
    requires Inv(s)
    ensures Inv(PrepareLock(s, key))
  {
    if key != "" && Find(s.entries, key).Some? {
      StartLockKeepsInv(s, key);
    }
  }

  /** A save leaves the entry of every session with a live lock as it is, or prunes it. */
  lemma SaveShieldsLocked(s: State, key: Key, scroller: Option<Scroller>, locked: Key)
    requires UniqueKeys(s.entries) && LiveLock(s, locked).Some?
    ensures var after := Find(Save(s, key, scroller).entries, locked);
            after == None || after == Find(s.entries, locked)
    ensures LiveLock(Save(s, key, scroller), locked) == LiveLock(s, locked)
  {
    if scroller.Some? {
      var p := Snapshot(scroller.value, scroller.value.top);
      var put := Put(s.entries, Entry(key, p, s.now));
      PutUnique(s.entries, Entry(key, p, s.now));
      PutFind(s.entries, Entry(key, p, s.now), locked);
      NewestFind(put, MAX_ENTRIES, locked);
    }
  }

  lemma SaveKeepsInv(s: State, key: Key, scroller: Option<Scroller>)
    requires Inv(s)
    ensures Inv(Save(s, key, scroller))
  {
    var s' := Save(s, key, scroller);
    if s'.entries != s.entries {
      var p := Snapshot(scroller.value, scroller.value.top);
      PutUnique(s.entries, Entry(key, p, s.now));
      NewestFind(Put(s.entries, Entry(key, p, s.now)), MAX_ENTRIES, key);
    }
    forall k | LiveLock(s', k).Some? && Find(s'.entries, k).Some?
      ensures LiveLock(s', k).value.target == Find(s'.entries, k).value.value.top
    {
      assert LiveLock(s, k) == LiveLock(s', k);
      SaveShieldsLocked(s, key, scroller, k);
    }
  }

  lemma ScheduleRestoreKeepsInv(s: State, key: Key)
    requires Inv(s)
    ensures Inv(ScheduleRestore(s, key))
  {
    if key != "" && Find(s.entries, key).Some? {
      StartLockKeepsInv(s, key);
    }
  }

  lemma SyncKeepsInv(s: State, current: Key, force: bool)
    requires Inv(s)
    ensures Inv(Sync(s, current, force))
  {
    if current != "" && s.enabled {
      ScheduleRestoreKeepsInv(Activate(s, current), current);
      ScheduleRestoreKeepsInv(s, current);
    }
  }

  lemma SameLocksKeepInv(s: State, s': State)
    requires Inv(s) && s'.entries == s.entries && s'.lock == s.lock && s'.now == s.now
    requires s'.restoreTimers == s.restoreTimers && s'.restoreRevision == s.restoreRevision
    requires forall t :: t in s'.syncTimers ==> t.revision <= s'.syncRevision
    ensures Inv(s')
  {
    assert forall k :: LiveLock(s', k) == LiveLock(s, k);
  }

  lemma AnnounceKeepsInv(s: State, target: Key)
    requires Inv(s)
    ensures Inv(Announce(s, target))
  {
    if target != "" {
      var s1 := s.(navigation := Some(Navigation(s.active, target, s.now)));
      SameLocksKeepInv(s, s1);
      PrepareLockKeepsInv(s1, target);
    }
  }

  lemma CaptureNavigationKeepsInv(s: State, target: Key, current: Key, scroller: Option<Scroller>)
    requires Inv(s)
    ensures Inv(CaptureNavigation(s, target, current, scroller))
  {
    var s1 := Depart(s, target);
    SameLocksKeepInv(s, s1);
    SaveKeepsInv(s1, s1.active, scroller);
    var s2 := if DuplicateNavigation(s, target) then s1 else Save(s1, s1.active, scroller);
    AnnounceKeepsInv(s2, target);
    SameLocksKeepInv(Announce(s2, target), ScheduleSyncAttempts(Announce(s2, target), current, true));
  }

  lemma InitialInv(entries: Store<Position>, now: nat, enabled: bool)
    requires UniqueKeys(entries)
    ensures Inv(Initial(entries, now, enabled))
  {
  }

  lemma StepKeepsInv(s: State, e: Event)
    requires Inv(s)
    ensures Inv(Step(s, e))
  {
    match e
    case SaveNow(scroller) => SaveKeepsInv(s, s.active, scroller);
    case Navigate(target, current, scroller) => CaptureNavigationKeepsInv(s, target, current, scroller);
    case PendingSync(current) =>
      if s.syncPending.Some? {
        SameLocksKeepInv(s, s.(syncPending := None));
        SyncKeepsInv(s.(syncPending := None), current, s.syncPending.value);
      }
    case Wait(ms) =>
      assert forall k :: LiveLock(Step(s, e), k).Some? ==> LiveLock(s, k) == LiveLock(Step(s, e), k);
    case RestoreCallback(t, scroller) => RestoreKeepsInv(s, t, scroller);
    case UserScroll(current) =>
    case _ => SameLocksKeepInv(s, Step(s, e));
  }

  lemma RestoreKeepsInv(s: State, t: RestoreTimer, scroller: Option<Scroller>)
    requires Inv(s)
    ensures Inv(FireRestore(s, t, scroller))
  {
    var s' := FireRestore(s, t, scroller);
    assert forall k :: LiveLock(s', k).Some? ==> LiveLock(s', k) == LiveLock(s, k);
  }

  lemma {:induction false} RunKeepsInv(s: State, run: seq<Event>)
    requires Inv(s)
    ensures Inv(Run(s, run))
    decreases |run|
  {
    if run != [] {
      StepKeepsInv(s, run[0]);
      RunKeepsInv(Step(s, run[0]), run[1..]);
    }
  }

  /** Over any run from any stored positions: while the lock of a session is live, it aims at
      the position stored for that session, if one is still stored. */
  lemma LockAimsAtStoredPosition(entries: Store<Position>, now: nat, enabled: bool, run: seq<Event>, key: Key)
    requires UniqueKeys(entries)
    ensures var s := Run(Initial(entries, now, enabled), run);
            LiveLock(s, key).Some? && Find(s.entries, key).Some?
            ==> LiveLock(s, key).value.target == Find(s.entries, key).value.value.top
  {
    InitialInv(entries, now, enabled);
    RunKeepsInv(Initial(entries, now, enabled), run);
  }

  /** While a lock is live no event overwrites the position it protects. */
  lemma LiveLockShieldsPosition(s: State, e: Event, key: Key)
    requires Inv(s) && LiveLock(s, key).Some?
    ensures Find(Step(s, e).entries, key) == None || Find(Step(s, e).entries, key) == Find(s.entries, key)
  {
    match e
    case SaveNow(scroller) => SaveShieldsLocked(s, s.active, scroller, key);
    case Navigate(target, _, scroller) =>
      var s1 := Depart(s, target);
      assert LiveLock(s1, key) == LiveLock(s, key);
      SaveShieldsLocked(s1, s1.active, scroller, key);
    case _ =>
  }

  lemma NavigationWritesNothing(s: State, target: Key, current: Key, scroller: Option<Scroller>)
    ensures var s' := CaptureNavigation(s, target, current, scroller);
            && s'.writes == s.writes && s'.restoreRevision == s.restoreRevision
            && s'.syncRevision >= s.syncRevision
  {
    var s1 := Depart(s, target);
    var s2 := if DuplicateNavigation(s, target) then s1 else Save(s1, s1.active, scroller);
    assert s2.writes == s.writes && s2.restoreRevision == s.restoreRevision && s2.syncRevision == s.syncRevision;
    var s3 := Announce(s2, target);
    assert s3.writes == s.writes && s3.restoreRevision == s.restoreRevision && s3.syncRevision == s.syncRevision;
  }

  lemma SyncWritesNothing(s: State, current: Key, force: bool)
    ensures var s' := Sync(s, current, force);
            && s'.writes == s.writes && s'.restoreRevision >= s.restoreRevision
            && s'.syncRevision == s.syncRevision
  {
  }

  /** Where a restore of a session goes: to its stored position, or, if that was pruned while its lock
      is live, to the target of the lock. */
  function RestoreTop(s: State, key: Key): Option<real> {
    var entry, lock := Find(s.entries, key), LiveLock(s, key);
    if entry.Some? then Some(entry.value.value.top)
    else if lock.Some? then Some(lock.value.target)
    else None
  }

  /** Only a restore callback of the current revision writes a scroll position, it writes that of
      the active session, and what it writes is the position to restore clamped to the scroller. */
  lemma WritesAreStoredPositions(s: State, e: Event)
    requires Inv(s)
    ensures Step(s, e).writes != s.writes ==>
              && e.RestoreCallback? && e.scroller.Some?
              && e.restore.revision == s.restoreRevision
              && s.enabled && !IntentActive(s) && !CancelledFor(s, s.active)
              && RestoreTop(s, s.active).Some?
              && Step(s, e).writes
                 == s.writes + [Write(s.active, TargetTop(e.scroller.value, RestoreTop(s, s.active).value))]
  {
    match e
    case Navigate(target, current, scroller) => NavigationWritesNothing(s, target, current, scroller);
    case PendingSync(current) =>
      if s.syncPending.Some? {
        SyncWritesNothing(s.(syncPending := None), current, s.syncPending.value);
      }
    case _ =>
  }

  /** Opening a thread that has a stored position and was not cancelled arms a callback that,
      whenever it runs, leaves the scroller at the stored position (to within one pixel). */
  lemma OpeningRestores(s: State, key: Key, ms: nat, scroller: Scroller)
    requires Inv(s) && s.enabled && s.syncPending.Some?
    requires key != "" && s.active != key && !CancelledFor(s, key) && Find(s.entries, key).Some?
    ensures var ready := Step(Step(s, PendingSync(key)), Wait(ms));
            var callback := RestoreTimer(ready.restoreRevision, key);
            var target := TargetTop(scroller, Find(s.entries, key).value.value.top);
            && callback in ready.restoreTimers
            && (var done := Step(ready, RestoreCallback(callback, Some(scroller)));
                if Abs(scroller.top - target) <= 1.0 then done.writes == s.writes
                else done.writes == s.writes + [Write(key, target)])
  {
    FindKey(s.entries, key);
  }

  // ---- A user scroll holds off restores ----

  /** The events that end the hold a user scroll has put on a session. */
  ghost predicate Releases(s: State, e: Event, key: Key) {
    match e
    case Navigate(target, _, _) => s.enabled && target != "" && target != s.active
    case PendingSync(current) => s.enabled && s.syncPending.Some? && current != "" && current != s.active && current != key
    case UserScroll(current) => s.enabled && CancelTarget(s, current) != key
    case _ => false
  }

  ghost predicate ReleasedDuring(s: State, run: seq<Event>, key: Key)
    decreases |run|
  {
    run != [] && (Releases(s, run[0], key) || ReleasedDuring(Step(s, run[0]), run[1..], key))
  }

  lemma HoldEndsExactlyAtRelease(s: State, e: Event, key: Key)
    requires CancelledFor(s, key)
    ensures CancelledFor(Step(s, e), key) <==> !Releases(s, e, key)
  {
  }

  lemma {:induction false} HoldStopsWrites(s: State, run: seq<Event>, key: Key)
    requires Inv(s) && CancelledFor(s, key) && !ReleasedDuring(s, run, key)
    ensures s.writes <= Run(s, run).writes
    ensures forall i :: |s.writes| <= i < |Run(s, run).writes| ==> Run(s, run).writes[i].session != key
    decreases |run|
  {
    if run != [] {
      HoldEndsExactlyAtRelease(s, run[0], key);
      StepKeepsInv(s, run[0]);
      WritesAreStoredPositions(s, run[0]);
      HoldStopsWrites(Step(s, run[0]), run[1..], key);
    }
  }

  /** After a user scroll attributed to a session, no restore moves that session's scroller
      until the hold is released. */
  lemma UserScrollStopsRestores(s: State, current: Key, run: seq<Event>)
    requires Inv(s) && s.enabled && CancelTarget(s, current) != ""
    requires !ReleasedDuring(Step(s, UserScroll(current)), run, CancelTarget(s, current))
    ensures var writes := Run(Step(s, UserScroll(current)), run).writes;
            && s.writes <= writes
            && forall i :: |s.writes| <= i < |writes| ==> writes[i].session != CancelTarget(s, current)
  {
    StepKeepsInv(s, UserScroll(current));
    HoldStopsWrites(Step(s, UserScroll(current)), run, CancelTarget(s, current));
  }

  // ---- A hold that is lost is lost for writes ----

  /** Events that leave the page on a session, with no navigation and no further user scroll. */
  ghost predicate StaysOn(run: seq<Event>, key: Key) {
    forall i :: 0 <= i < |run| ==>
      !run[i].Navigate? && !run[i].UserScroll? && (run[i].PendingSync? ==> run[i].current == key)
  }

  ghost predicate WritesTo(s: State, run: seq<Event>, key: Key) {
    exists i :: |s.writes| <= i < |Run(s, run).writes| && Run(s, run).writes[i].session == key
  }

  lemma {:induction false} StayingReleasesNothing(s: State, run: seq<Event>, key: Key)
    requires StaysOn(run, key)
    ensures !ReleasedDuring(s, run, key)
    decreases |run|
  {
    if run != [] {
      assert forall i :: 0 <= i < |run[1..]| ==> run[1..][i] == run[i + 1];
      StayingReleasesNothing(Step(s, run[0]), run[1..], key);
    }
  }

  /** What makes the next sync a forced one, from any state: a sync that may be pending without force
      has to run first. */
  function Resync(key: Key): seq<Event> {
    [Wait(USER_INTENT_WINDOW_MS), RequestSync(true), PendingSync(key), RequestSync(true), PendingSync(key)]
  }

  lemma RunAppend(s: State, a: seq<Event>, b: seq<Event>)
    ensures Run(s, a + b) == Run(Run(s, a), b)
    ensures IsRun(s, a + b) <==> IsRun(s, a) && IsRun(Run(s, a), b)
    decreases |a|
  {
    if a == [] {
      assert a + b == b;
    } else {
      assert (a + b)[1..] == a[1..] + b;
      RunAppend(Step(s, a[0]), a[1..], b);
    }
  }

  lemma RunOne(s: State, e: Event)
    ensures Run(s, [e]) == Step(s, e) && (IsRun(s, [e]) <==> Enabled(s, e))
  {
    assert [e][1..] == [];
  }

  /** The active session, not held and with a stored position. */
  ghost predicate Restorable(s: State, key: Key) {
    s.enabled && key != "" && s.active == key && !CancelledFor(s, key) && Find(s.entries, key).Some?
  }

  lemma SyncRestores(s: State, key: Key)
    requires Restorable(s, key) && !IntentActive(s) && s.syncPending == Some(true)
    ensures var after := Step(s, PendingSync(key));
            && RestoreTimer(after.restoreRevision, key) in after.restoreTimers
            && Restorable(after, key) && !IntentActive(after)
            && after.entries == s.entries && after.writes == s.writes && after.now == s.now && after.syncPending == None
            && LiveLock(after, key) == Some(Lock(key, Find(s.entries, key).value.value.top, s.now + RESTORE_WINDOW_MS))
  {
    FindKey(s.entries, key);
  }

  lemma SyncOnSame(s: State, key: Key)
    requires Restorable(s, key) && !IntentActive(s) && s.syncPending.Some?
    ensures var after := Step(s, PendingSync(key));
            && Restorable(after, key) && !IntentActive(after) && after.syncPending == None
            && after.entries == s.entries && after.writes == s.writes
  {
  }

  lemma RestoreWrites(s: State, key: Key, scroller: Scroller, t: RestoreTimer)
    requires Restorable(s, key) && !IntentActive(s) && t == RestoreTimer(s.restoreRevision, key)
    requires LiveLock(s, key).Some?
    requires var top := TargetTop(scroller, LiveLock(s, key).value.target); Abs(scroller.top - top) > 1.0
    ensures Step(s, RestoreCallback(t, Some(scroller))).writes
            == s.writes + [Write(key, TargetTop(scroller, LiveLock(s, key).value.target))]
  {
  }

  lemma ResyncArms(s: State, key: Key)
    requires Restorable(s, key) && s.intentUntil <= s.now + USER_INTENT_WINDOW_MS
    ensures IsRun(s, Resync(key))
    ensures var after := Run(s, Resync(key));
            && RestoreTimer(after.restoreRevision, key) in after.restoreTimers
            && Restorable(after, key) && !IntentActive(after) && after.writes == s.writes
            && LiveLock(after, key).Some? && LiveLock(after, key).value.target == Find(s.entries, key).value.value.top
  {
    var s2 := Step(Step(s, Wait(USER_INTENT_WINDOW_MS)), RequestSync(true));
    SyncOnSame(s2, key);
    var s4 := Step(Step(s2, PendingSync(key)), RequestSync(true));
    SyncRestores(s4, key);
    ResyncRuns(s, key);
  }

  /** An active session that is not held can be restored by the page alone: without a navigation or
      a user scroll its scroller, anywhere off its stored position, is put back there. */
  lemma NotHeldIsRestored(s: State, key: Key, scroller: Scroller) returns (run: seq<Event>)
    requires Restorable(s, key) && s.intentUntil <= s.now + USER_INTENT_WINDOW_MS
    requires var top := TargetTop(scroller, Find(s.entries, key).value.value.top); Abs(scroller.top - top) > 1.0
    ensures StaysOn(run, key) && IsRun(s, run)
    ensures Run(s, run).writes == s.writes + [Write(key, TargetTop(scroller, Find(s.entries, key).value.value.top))]
  {
    ResyncArms(s, key);
    var armed := Run(s, Resync(key));
    var t := RestoreTimer(armed.restoreRevision, key);
    RestoreWrites(armed, key, scroller, t);
    var callback := RestoreCallback(t, Some(scroller));
    run := Resync(key) + [callback];
    RunAppend(s, Resync(key), [callback]);
    RunOne(armed, callback);
  }

  lemma ResyncRuns(s: State, key: Key)
    ensures var s2 := Step(Step(s, Wait(USER_INTENT_WINDOW_MS)), RequestSync(true));
            var s4 := Step(Step(s2, PendingSync(key)), RequestSync(true));
            && Run(s, Resync(key)) == Step(s4, PendingSync(key))
            && (IsRun(s, Resync(key)) <==> s2.syncPending.Some? && s4.syncPending.Some?)
  {
    var w, r, p := Wait(USER_INTENT_WINDOW_MS), RequestSync(true), PendingSync(key);
    assert Resync(key) == [w] + ([r] + ([p] + ([r] + [p])));
    var s1 := Step(s, w);
    var s2 := Step(s1, r);
    var s3 := Step(s2, p);
    RunAppend(s, [w], [r] + ([p] + ([r] + [p])));
    RunAppend(s1, [r], [p] + ([r] + [p]));
    RunAppend(s2, [p], [r] + [p]);
    RunAppend(s3, [r], [p]);
    RunOne(s, w);
    RunOne(s1, r);
    RunOne(s2, p);
    RunOne(s3, r);
    RunOne(Step(s3, r), p);
  }

  /** A scroller at one end of its range, away from a stored position. */
  function FarFrom(top: real): Scroller {
    Scroller(if top > 500.0 then 0.0 else 1000.0, 1300.0, 300.0, false)
  }

  lemma FarIsOff(top: real)
    ensures Abs(FarFrom(top).top - TargetTop(FarFrom(top), top)) > 1.0
  {
  }

  /** A user scroll on the active session protects it from restores, as long as the page stays on it,
      if and only if the scroll is attributed to it. */
  lemma ScrollProtectsIff(s: State, current: Key, key: Key)
    requires Inv(s) && s.enabled && key != "" && s.active == key && Find(s.entries, key).Some?
    ensures var after := Step(s, UserScroll(current));
            CancelTarget(s, current) == key
            <==> forall run :: StaysOn(run, key) && IsRun(after, run) ==> !WritesTo(after, run, key)
  {
    var after := Step(s, UserScroll(current));
    if CancelTarget(s, current) == key {
      forall run | StaysOn(run, key) && IsRun(after, run) ensures !WritesTo(after, run, key) {
        StayingReleasesNothing(after, run, key);
        UserScrollStopsRestores(s, current, run);
      }
    } else {
      var top := Find(s.entries, key).value.value.top;
      FarIsOff(top);
      var run := NotHeldIsRestored(after, key, FarFrom(top));
      assert Run(after, run).writes[|after.writes|].session == key;
      assert WritesTo(after, run, key);
    }
  }

  const READING: Key := "thread-a"
  const PASSING: Key := "thread-b"

  /** A first visit to a thread with a stored position: a page is opened on it with the feature off,
      and then the feature is switched on. */
  function Visit(): seq<Event> {
    [RequestSync(false), PendingSync(READING), Toggle(true)]
  }

  function VisitStart(): State {
    Initial([Entry(READING, Position(100.0, 900.0, 300.0), 1)], 10, false)
  }

  lemma VisitReads()
    ensures IsRun(VisitStart(), Visit()) && Run(VisitStart(), Visit()) == VisitStart().(active := READING, enabled := true)
  {
  }

  /** Navigating away and opening another thread are not the only releases: a second user scroll
      attributed to another thread replaces the hold. Here the page shows that thread for a moment
      while the first is active, and the first is restored although the user had scrolled it. */
  lemma ScrollElsewhereReleases()
    ensures var s := Run(VisitStart(), Visit());
            && IsRun(VisitStart(), Visit())
            && Step(s, UserScroll(READING)).cancelled == READING
            && (var after := Step(Step(s, UserScroll(READING)), UserScroll(PASSING));
                exists run :: StaysOn(run, READING) && IsRun(after, run) && WritesTo(after, run, READING))
  {
    VisitReads();
    var s := VisitStart().(active := READING, enabled := true);
    var held := Step(s, UserScroll(READING));
    InitialInv(VisitStart().entries, 10, false);
    RunKeepsInv(VisitStart(), Visit());
    StepKeepsInv(s, UserScroll(READING));
    assert CancelTarget(held, PASSING) == PASSING;
    ScrollProtectsIff(held, PASSING, READING);
  }

  // ---- Callbacks scheduled before a user scroll are dead ----

  lemma StepGrowsRevisions(s: State, e: Event)
    ensures s.restoreRevision <= Step(s, e).restoreRevision
    ensures s.syncRevision <= Step(s, e).syncRevision
  {
    match e
    case Navigate(target, current, scroller) => NavigationWritesNothing(s, target, current, scroller);
    case PendingSync(current) =>
      if s.syncPending.Some? {
        SyncWritesNothing(s.(syncPending := None), current, s.syncPending.value);
      }
    case _ =>
  }

  lemma {:induction false} RevisionsOnlyGrow(s: State, run: seq<Event>)
    ensures s.restoreRevision <= Run(s, run).restoreRevision
    ensures s.syncRevision <= Run(s, run).syncRevision
    decreases |run|
  {
    if run != [] {
      StepGrowsRevisions(s, run[0]);
      RevisionsOnlyGrow(Step(s, run[0]), run[1..]);
    }
  }

  /** Whatever happens after a user scroll, in any order, a callback scheduled before it does
      nothing when it runs. */
  lemma UserScrollKillsCallbacks(s: State, current: Key, run: seq<Event>, scroller: Option<Scroller>)
    requires Inv(s) && s.enabled
    ensures var s' := Run(Step(s, UserScroll(current)), run);
            && (forall t :: t in s.restoreTimers ==> Step(s', RestoreCallback(t, scroller)) == s')
            && (forall t :: t in s.syncTimers ==> Step(s', SyncCallback(t)) == s')
  {
    RevisionsOnlyGrow(Step(s, UserScroll(current)), run);
  }
}
