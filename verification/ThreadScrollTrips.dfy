/** Which position is stored, and that leaving a thread and coming back restores it. */
module ThreadScrollTrips {
  import opened Wrappers
  import opened Recency
  import opened ThreadScroll
  import opened ThreadScrollLaws

  // ---- What a save stores ----

  /** The scroller is where it was saved or restored last: less than two pixels off, at the same size. */
  predicate SameAsLast(last: Position, scroller: Scroller) {
    && -2.0 < last.top - scroller.top < 2.0
    && last.scrollHeight == (if scroller.scrollHeight >= 0.0 then scroller.scrollHeight else 0.0)
    && last.clientHeight == (if scroller.clientHeight >= 0.0 then scroller.clientHeight else 0.0)
  }

  /** A lock that holds off saves of the session. */
  predicate LockedFor(s: State, key: Key) {
    s.lock.Some? && s.lock.value.session == key && s.now < s.lock.value.expiresAt
  }

  /** The conditions for a save. */
  predicate Saves(s: State, key: Key, scroller: Option<Scroller>) {
    s.enabled && key != "" && scroller.Some? && !LockedFor(s, key) && !SameAsLast(s.last, scroller.value)
  }

  /** A save stores the scroller's own position under its session, exactly under these conditions, and
      otherwise stores nothing. */
  lemma SaveStores(s: State, key: Key, scroller: Option<Scroller>)
    requires Inv(s)
    ensures !Saves(s, key, scroller) ==> Save(s, key, scroller).entries == s.entries && Save(s, key, scroller).last == s.last
    ensures Saves(s, key, scroller) ==> Save(s, key, scroller).last.top == scroller.value.top
    ensures Saves(s, key, scroller) && Room(s.entries, 120, key, s.now) ==>
              var stored := Find(Save(s, key, scroller).entries, key);
              && stored.Some? && stored.value.at == s.now
              && stored.value.value.top == scroller.value.top
              && stored.value.value.scrollHeight == (if scroller.value.scrollHeight >= 0.0 then scroller.value.scrollHeight else 0.0)
              && stored.value.value.clientHeight == (if scroller.value.clientHeight >= 0.0 then scroller.value.clientHeight else 0.0)
  {
    if Saves(s, key, scroller) && Room(s.entries, 120, key, s.now) {
      PutKept(s.entries, 120, Entry(key, Snapshot(scroller.value, scroller.value.top), s.now));
    }
  }

  lemma SaveElsewhere(s: State, key: Key, scroller: Option<Scroller>, other: Key)
    requires Inv(s) && other != key
    ensures var after := Find(Save(s, key, scroller).entries, other);
            && (after == None || after == Find(s.entries, other))
            && (|s.entries| < 120 ==> after == Find(s.entries, other))
  {
    if Save(s, key, scroller).entries != s.entries {
      PutElsewhere(s.entries, 120, Entry(key, Snapshot(scroller.value, scroller.value.top), s.now), other);
    }
  }

  lemma SaveGrows(s: State, key: Key, scroller: Option<Scroller>)
    ensures |Save(s, key, scroller).entries| <= |s.entries| + 1
  {
    if Save(s, key, scroller).entries != s.entries {
      PutRoom(s.entries, 120, Entry(key, Snapshot(scroller.value, scroller.value.top), s.now));
    }
  }

  // ---- Over whole runs, what is stored was saved ----

  /** An event that may save the active session's position. */
  predicate SavesAt(s: State, e: Event, key: Key, top: real) {
    && s.active == key
    && match e
       case SaveNow(scroller) => scroller.Some? && scroller.value.top == top
       case Navigate(_, _, scroller) => scroller.Some? && scroller.value.top == top
       case _ => false
  }

  ghost predicate Stored(s: State, key: Key, top: real) {
    Find(s.entries, key).Some? && Find(s.entries, key).value.value.top == top
  }

  lemma SaveTop(s: State, key: Key, scroller: Option<Scroller>)
    requires Inv(s)
    ensures var after := Find(Save(s, key, scroller).entries, key);
            after.Some? ==> after == Find(s.entries, key) || (scroller.Some? && after.value.value.top == scroller.value.top)
  {
    if Save(s, key, scroller).entries != s.entries {
      var e := Entry(key, Snapshot(scroller.value, scroller.value.top), s.now);
      PutUnique(s.entries, e);
      PutFind(s.entries, e, key);
      NewestFind(Put(s.entries, e), 120, key);
    }
  }

  lemma NavigationEntries(s: State, target: Key, current: Key, scroller: Option<Scroller>)
    ensures var s1 := Depart(s, target);
            CaptureNavigation(s, target, current, scroller).entries
            == if !s.enabled || DuplicateNavigation(s, target) then s.entries else Save(s1, s.active, scroller).entries
  {
    var s1 := Depart(s, target);
    var s2 := if DuplicateNavigation(s, target) then s1 else Save(s1, s1.active, scroller);
    assert Announce(s2, target).entries == s2.entries;
  }

  /** A save stores nothing of another session, and of its own what the scroller says or what was there. */
  lemma SaveStored(s: State, saved: Key, scroller: Option<Scroller>, key: Key, top: real)
    requires Inv(s) && Stored(Save(s, saved, scroller), key, top)
    ensures Stored(s, key, top) || (saved == key && scroller.Some? && scroller.value.top == top)
  {
    SaveTop(s, saved, scroller);
    if saved != key { SaveElsewhere(s, saved, scroller, key); }
  }

  lemma NavigationStores(s: State, target: Key, current: Key, scroller: Option<Scroller>, key: Key, top: real)
    requires Inv(s) && Stored(CaptureNavigation(s, target, current, scroller), key, top)
    ensures Stored(s, key, top) || (s.active == key && scroller.Some? && scroller.value.top == top)
  {
    var s1 := Depart(s, target);
    NavigationEntries(s, target, current, scroller);
    SameLocksKeepInv(s, s1);
    if s.enabled && !DuplicateNavigation(s, target) { SaveStored(s1, s.active, scroller, key, top); }
  }

  lemma StepStores(s: State, e: Event, key: Key, top: real)
    requires Inv(s) && Stored(Step(s, e), key, top)
    ensures Stored(s, key, top) || SavesAt(s, e, key, top)
  {
    match e
    case SaveNow(scroller) => SaveStored(s, s.active, scroller, key, top);
    case Navigate(target, current, scroller) => NavigationStores(s, target, current, scroller, key, top);
    case _ => OthersStoreNothing(s, e);
  }

  lemma OthersStoreNothing(s: State, e: Event)
    requires !e.SaveNow? && !e.Navigate?
    ensures Step(s, e).entries == s.entries
  {
  }

  ghost predicate SavedDuring(s: State, run: seq<Event>, key: Key, top: real)
    decreases |run|
  {
    run != [] && (SavesAt(s, run[0], key, top) || SavedDuring(Step(s, run[0]), run[1..], key, top))
  }

  /** Over any run, a stored position was stored before it, or is where the scroller was at a save while
      the thread was active. */
  lemma {:induction false} StoredWasSaved(s: State, run: seq<Event>, key: Key, top: real)
    requires Inv(s) && Stored(Run(s, run), key, top)
    ensures Stored(s, key, top) || SavedDuring(s, run, key, top)
    decreases |run|
  {
    if run != [] {
      StepKeepsInv(s, run[0]);
      StoredWasSaved(Step(s, run[0]), run[1..], key, top);
      if Stored(Step(s, run[0]), key, top) { StepStores(s, run[0], key, top); }
    }
  }

  // ---- A round trip ----

  /** `w` is the position nearest to `t` in the scroller's range: from 0 to the overhang, or, for a
      reversed scroller, from minus the overhang to 0. */
  predicate Nearest(scroller: Scroller, t: real, w: real) {
    var overhang := if scroller.scrollHeight > scroller.clientHeight then scroller.scrollHeight - scroller.clientHeight else 0.0;
    if scroller.reversed then
      w == if t < -overhang then -overhang else if t > 0.0 then 0.0 else t
    else
      w == if t < 0.0 then 0.0 else if t > overhang then overhang else t
  }

  lemma TargetIsNearest(scroller: Scroller, t: real)
    ensures Nearest(scroller, t, TargetTop(scroller, t))
  {
  }

  /** Clicking another thread saves the position and asks for a sync. */
  lemma ClickSaves(s: State, a: Key, b: Key, scroller: Scroller)
    requires Inv(s) && s.active == a && b != "" && b != a && |s.entries| < 120
    requires Saves(s, a, Some(scroller)) && !DuplicateNavigation(s, b)
    ensures var s1 := Step(s, Navigate(b, a, Some(scroller)));
            && Inv(s1) && Stored(s1, a, scroller.top) && |s1.entries| <= |s.entries| + 1
            && s1.enabled && s1.active == a && s1.writes == s.writes
            && SyncTimer(s1.syncRevision, true) in s1.syncTimers
  {
    var s0 := Depart(s, b);
    StepKeepsInv(s, Navigate(b, a, Some(scroller)));
    NavigationEntries(s, b, a, Some(scroller));
    NavigationWritesNothing(s, b, a, Some(scroller));
    SameLocksKeepInv(s, s0);
    SaveStores(s0, a, Some(scroller));
    SaveGrows(s0, a, Some(scroller));
    NavigationSyncs(s, b, a, Some(scroller));
  }

  lemma NavigationSyncs(s: State, target: Key, current: Key, scroller: Option<Scroller>)
    requires s.enabled && target != "" && target != s.active
    ensures var s1 := CaptureNavigation(s, target, current, scroller);
            && s1.enabled && s1.active == s.active && s1.intentUntil == 0 && s1.cancelled == ""
            && SyncTimer(s1.syncRevision, true) in s1.syncTimers
  {
    var s0 := Depart(s, target);
    var s2 := if DuplicateNavigation(s, target) then s0 else Save(s0, s0.active, scroller);
    assert s2.intentUntil == 0 && s2.cancelled == "" && s2.active == s.active && s2.enabled;
    var s3 := Announce(s2, target);
    assert s3.intentUntil == 0 && s3.cancelled == "" && s3.active == s.active && s3.enabled;
  }

  /** The sync that follows opens the other thread. */
  lemma SyncOpens(s: State, b: Key)
    requires Inv(s) && s.enabled && b != "" && s.active != b && SyncTimer(s.syncRevision, true) in s.syncTimers
    ensures var s1 := Step(s, SyncCallback(SyncTimer(s.syncRevision, true)));
            var s2 := Step(s1, PendingSync(b));
            && s1.syncPending.Some? && Inv(s2)
            && s2.entries == s.entries && s2.writes == s.writes
            && s2.enabled && s2.active == b && s2.navigation == None && s2.intentUntil == 0
            && (s.cancelled == "" ==> s2.cancelled == "")
  {
    var s1 := Step(s, SyncCallback(SyncTimer(s.syncRevision, true)));
    StepKeepsInv(s, SyncCallback(SyncTimer(s.syncRevision, true)));
    StepKeepsInv(s1, PendingSync(b));
  }

  /** Clicking back keeps the position of the thread that was left. */
  lemma ClickBackKeeps(s: State, a: Key, b: Key, other: Option<Scroller>, t: real)
    requires Inv(s) && s.enabled && s.active == b && a != "" && a != b && |s.entries| < 120 && Stored(s, a, t)
    ensures var s1 := Step(s, Navigate(a, b, other));
            && Inv(s1) && Stored(s1, a, t) && s1.enabled && s1.active == b && s1.writes == s.writes && s1.cancelled == ""
            && SyncTimer(s1.syncRevision, true) in s1.syncTimers
  {
    var s0 := Depart(s, a);
    StepKeepsInv(s, Navigate(a, b, other));
    NavigationEntries(s, a, b, other);
    NavigationWritesNothing(s, a, b, other);
    SameLocksKeepInv(s, s0);
    SaveElsewhere(s0, b, other, a);
    NavigationSyncs(s, a, b, other);
  }

  lemma SyncArms(s: State, a: Key, t: real)
    requires Inv(s) && s.enabled && a != "" && s.active != a && s.cancelled == "" && Stored(s, a, t)
    requires s.syncPending.Some?
    ensures var s1 := Step(s, PendingSync(a));
            && RestoreTimer(s1.restoreRevision, a) in s1.restoreTimers
            && Restorable(s1, a) && s1.intentUntil == 0 && Stored(s1, a, t) && s1.writes == s.writes
            && s1.lock.Some? && s1.lock.value.session == a && s1.lock.value.target == t
  {
    FindKey(s.entries, a);
  }

  lemma CallbackRestores(s: State, a: Key, t: real, ms: nat, scroller: Scroller)
    requires Restorable(s, a) && s.intentUntil == 0 && Stored(s, a, t)
    requires s.lock.Some? && s.lock.value.session == a && s.lock.value.target == t
    ensures var s1 := Step(Step(s, Wait(ms)), RestoreCallback(RestoreTimer(s.restoreRevision, a), Some(scroller)));
            exists w :: Nearest(scroller, t, w)
                        && s1.writes == if -1.0 <= scroller.top - w <= 1.0 then s.writes else s.writes + [Write(a, w)]
  {
    TargetIsNearest(scroller, t);
  }

  /** The clicks and callbacks of a visit to another thread and back. */
  function Trip(s: State, a: Key, b: Key, left: Scroller, other: Option<Scroller>): State {
    var s1 := Step(s, Navigate(b, a, Some(left)));
    var s2 := Step(Step(s1, SyncCallback(SyncTimer(s1.syncRevision, true))), PendingSync(b));
    var s3 := Step(s2, Navigate(a, b, other));
    Step(Step(s3, SyncCallback(SyncTimer(s3.syncRevision, true))), PendingSync(a))
  }

  lemma TripArms(s: State, a: Key, b: Key, left: Scroller, other: Option<Scroller>)
    requires Inv(s) && s.active == a && b != "" && b != a && |s.entries| <= 118
    requires Saves(s, a, Some(left)) && !DuplicateNavigation(s, b)
    ensures var s4 := Trip(s, a, b, left, other);
            && RestoreTimer(s4.restoreRevision, a) in s4.restoreTimers
            && Restorable(s4, a) && s4.intentUntil == 0 && Stored(s4, a, left.top) && s4.writes == s.writes
            && s4.lock.Some? && s4.lock.value.session == a && s4.lock.value.target == left.top
  {
    ClickSaves(s, a, b, left);
    var s1 := Step(s, Navigate(b, a, Some(left)));
    SyncOpens(s1, b);
    var s2 := Step(Step(s1, SyncCallback(SyncTimer(s1.syncRevision, true))), PendingSync(b));
    ComeBack(s2, a, b, other, left.top);
  }

  lemma ComeBack(s2: State, a: Key, b: Key, other: Option<Scroller>, t: real)
    requires Inv(s2) && s2.enabled && s2.active == b && a != "" && a != b && |s2.entries| < 120 && Stored(s2, a, t)
    ensures var s3 := Step(s2, Navigate(a, b, other));
            var s4 := Step(Step(s3, SyncCallback(SyncTimer(s3.syncRevision, true))), PendingSync(a));
            && RestoreTimer(s4.restoreRevision, a) in s4.restoreTimers
            && Restorable(s4, a) && s4.intentUntil == 0 && Stored(s4, a, t) && s4.writes == s2.writes
            && s4.lock.Some? && s4.lock.value.session == a && s4.lock.value.target == t
  {
    ClickBackKeeps(s2, a, b, other, t);
    var s3 := Step(s2, Navigate(a, b, other));
    SyncAsks(s3);
    SyncArms(Step(s3, SyncCallback(SyncTimer(s3.syncRevision, true))), a, t);
  }

  lemma SyncAsks(s: State)
    requires Inv(s) && SyncTimer(s.syncRevision, true) in s.syncTimers
    ensures var s1 := Step(s, SyncCallback(SyncTimer(s.syncRevision, true)));
            && Inv(s1) && s1.syncPending.Some? && s1.entries == s.entries && s1.writes == s.writes
            && s1.enabled == s.enabled && s1.active == s.active && s1.cancelled == s.cancelled && s1.intentUntil == s.intentUntil
  {
    StepKeepsInv(s, SyncCallback(SyncTimer(s.syncRevision, true)));
  }

  /** Leaving a thread whose scroller stands at `left.top`, opening another and coming back: the callback
      that is then armed, whenever it runs, moves the thread's scroller to that position, or to the nearer
      end of its range, unless it is within a pixel of it. */
  lemma TripRestores(s: State, a: Key, b: Key, left: Scroller, other: Option<Scroller>, ms: nat, back: Scroller)
    requires Inv(s) && s.active == a && b != "" && b != a && |s.entries| <= 118
    requires Saves(s, a, Some(left)) && !DuplicateNavigation(s, b)
    ensures var s4 := Trip(s, a, b, left, other);
            var callback := RestoreTimer(s4.restoreRevision, a);
            && callback in s4.restoreTimers
            && exists w :: Nearest(back, left.top, w)
                 && Step(Step(s4, Wait(ms)), RestoreCallback(callback, Some(back))).writes
                    == if -1.0 <= back.top - w <= 1.0 then s.writes else s.writes + [Write(a, w)]
  {
    TripArms(s, a, b, left, other);
    CallbackRestores(Trip(s, a, b, left, other), a, left.top, ms, back);
  }

  // ---- How long things last ----

  /** A restore locks the stored position for 3.2 seconds. */
  lemma LockLasts(s: State, key: Key, ms: nat)
    requires Inv(s) && Restorable(s, key) && !IntentActive(s)
    ensures LockedFor(Step(ScheduleRestore(s, key), Wait(ms)), key) <==> ms < 3200
  {
    FindKey(s.entries, key);
  }

  /** For 1.2 seconds after a user scroll no restore moves any scroller. */
  lemma IntentLasts(s: State, current: Key, ms: nat, t: RestoreTimer, scroller: Option<Scroller>)
    requires s.enabled
    ensures var held := Step(Step(s, UserScroll(current)), Wait(ms));
            && (IntentActive(held) <==> ms < 1200)
            && (ms < 1200 ==> Step(held, RestoreCallback(t, scroller)).writes == s.writes)
  {
  }

  /** The same click within five seconds counts once: it does not save. */
  lemma RepeatedClick(s: State, target: Key, current: Key, scroller: Option<Scroller>)
    requires s.enabled && target != ""
    requires s.navigation.Some? && s.navigation.value.target == target && s.now < s.navigation.value.at + 5000
    ensures CaptureNavigation(s, target, current, scroller).entries == s.entries
  {
    NavigationEntries(s, target, current, scroller);
  }

  /** A user scroll is attributed to the session of the restore in progress, else to the session shown,
      else to the active one. */
  lemma ScrollIsAttributed(s: State, current: Key)
    requires s.enabled && Inv(s)
    ensures var cancelled := Step(s, UserScroll(current)).cancelled;
            && (s.lock.Some? ==> cancelled == s.lock.value.session)
            && (s.lock.None? && current != "" ==> cancelled == current)
            && (s.lock.None? && current == "" ==> cancelled == s.active)
  {
  }

  // ---- What does nothing ----

  /** With the feature off, clicks, scrolls, saves and restores change nothing. */
  lemma DisabledDoesNothing(s: State, e: Event)
    requires !s.enabled && (e.SaveNow? || e.Navigate? || e.UserScroll? || e.RestoreCallback?)
    ensures Step(s, e) == s
  {
  }

  /** A sync that is not forced does nothing on the page of the active session. */
  lemma QuietSync(s: State)
    requires s.enabled && s.active != "" && s.syncPending == Some(false)
    ensures Step(s, PendingSync(s.active)) == s.(syncPending := None)
  {
  }

  /** Opening a session without a stored position locks nothing and arms no callback. */
  lemma OpeningUnknown(s: State, b: Key)
    requires s.enabled && b != "" && s.active != b && s.syncPending.Some? && Find(s.entries, b) == None
    ensures var s1 := Step(s, PendingSync(b));
            && s1.active == b && s1.lock == None && s1.restoreTimers == s.restoreTimers
            && s1.entries == s.entries && s1.writes == s.writes
  {
  }

  /** A position the runtime itself moved the scroller to is not saved, up to two pixels off. */
  lemma RestoredIsNotSaved(s: State, t: RestoreTimer, before: Scroller, after: Scroller)
    requires Inv(s) && Step(s, RestoreCallback(t, Some(before))).writes != s.writes
    requires after.scrollHeight == before.scrollHeight && after.clientHeight == before.clientHeight
    requires var w := Step(s, RestoreCallback(t, Some(before))).writes[|s.writes|].top; -2.0 < after.top - w < 2.0
    ensures var s1 := Step(s, RestoreCallback(t, Some(before))); Step(s1, SaveNow(Some(after))).entries == s1.entries
  {
  }
}
