/** The choice made for a thread is the choice kept, and the one its requests are sent with. */
module ServiceTierChoices {
  import opened Wrappers
  import opened Text
  import opened Recency
  import opened ServiceTier

  // ---- What an action changes ----

  /** A button that acts: the backend is there, and a fast choice has a model that can take it. */
  predicate Accepted(action: Action) {
    match action
    case ChooseControl(mode, connected, fastAvailable) => connected && (mode == GlobalFast ==> fastAvailable)
    case ChooseThread(_, choice, connected, fastAvailable) => connected && (choice == Some(Fast) ==> fastAvailable)
    case ShowThread(_) => true
  }

  lemma RefusedChangesNothing(storage: Storage, action: Action, now: nat)
    ensures !Accepted(action) ==> Act(storage, action, now) == storage
  {
  }

  lemma OverrideIsFound(storage: Storage, t: Key)
    requires t != ""
    ensures Override(storage, t)
            == if Find(storage.entries, t).Some? then Some(Find(storage.entries, t).value.value) else None
  {
  }

  /** The choice made for a thread is its override, inherit being none at all. */
  lemma ChosenIsKept(storage: Storage, t: Key, c: Mode, now: nat)
    requires Inv(storage) && t != ""
    ensures var after := Act(storage, ChooseThread(t, c, true, true), now);
            && (c == None || Room(storage.entries, 120, t, now) ==> Override(after, t) == c)
            && after.mode == Some(Custom) && after.defaultMode == Some(Read(storage).defaultMode) && after.draft == storage.draft
  {
    if c.Some? {
      if Room(storage.entries, 120, t, now) { PutKept(storage.entries, 120, Entry(t, c.value, now)); }
    } else {
      RemoveFind(storage.entries, t, t);
      NewestFind(Remove(storage.entries, t), 120, t);
    }
  }

  /** The other threads keep theirs. A full store may lose some to a thread that had none. */
  lemma OthersKeepTheirs(storage: Storage, t: Key, c: Mode, now: nat, u: Key)
    requires Inv(storage) && t != "" && u != t
    ensures var after := Override(Act(storage, ChooseThread(t, c, true, true), now), u);
            && (after == Override(storage, u) || after == None)
            && (c == None || |storage.entries| < 120 || Override(storage, t).Some? ==> after == Override(storage, u))
  {
    if c.Some? {
      PutElsewhere(storage.entries, 120, Entry(t, c.value, now), u);
    } else {
      RemoveFind(storage.entries, t, u);
      RemoveSize(storage.entries, t);
      NotFullFind(Remove(storage.entries, t), 120, u);
    }
  }

  /** A choice made before the thread has an id is the draft's, for a minute; it changes no thread. */
  lemma DraftIsKept(storage: Storage, c: Mode, now: nat, later: nat, u: Key)
    requires Inv(storage)
    ensures var after := Act(storage, ChooseThread("", c, true, true), now);
            && CurrentDraft(after, later) == (if later <= now + 60_000 then c else None)
            && Override(after, u) == Override(storage, u)
  {
    NotFullFind(storage.entries, 120, u);
  }

  /** The first thread shown within that minute gets the draft's choice unless it has one of its own, and
      the draft is used up; after the minute nothing changes. */
  lemma DraftIsBound(storage: Storage, t: Key, c: Choice, at: nat, now: nat)
    requires Inv(storage) && t != "" && storage.draft == Some(Draft(c, at))
    requires Room(storage.entries, 120, t, now)
    ensures var after := Act(storage, ShowThread(t), now);
            if now <= at + 60_000 then
              && after.draft == None
              && Override(after, t) == (if Override(storage, t).Some? then Override(storage, t) else Some(c))
            else after == storage
  {
    NotFullFind(storage.entries, 120, t);
    PutKept(storage.entries, 120, Entry(t, c, now));
  }

  lemma BindingKeepsOthers(storage: Storage, t: Key, now: nat, u: Key)
    requires Inv(storage) && u != t
    ensures var after := Override(Act(storage, ShowThread(t), now), u);
            && (after == Override(storage, u) || after == None)
            && (|storage.entries| < 120 ==> after == Override(storage, u))
  {
    NotFullFind(storage.entries, 120, u);
    if CurrentDraft(storage, now).Some? {
      PutElsewhere(storage.entries, 120, Entry(t, CurrentDraft(storage, now).value, now), u);
    }
  }

  // ---- Over a run ----

  /** Another choice for the thread, or one that does away with all choices. */
  predicate Displaces(action: Action, t: Key) {
    && Accepted(action)
    && match action
       case ChooseControl(mode, _, _) => mode != Custom
       case ChooseThread(thread, _, _, _) => thread == t
       case ShowThread(_) => false
  }

  /** The custom mode, with this choice for the thread. */
  ghost predicate Chosen(storage: Storage, t: Key, c: Choice) {
    storage.mode == Some(Custom) && Override(storage, t) == Some(c)
  }

  lemma ControlKeepsChosen(storage: Storage, t: Key, c: Choice)
    requires Inv(storage) && Chosen(storage, t, c)
    ensures Chosen(SetControlMode(storage, Custom), t, c)
    ensures |SetControlMode(storage, Custom).entries| == |storage.entries|
  {
    NotFullFind(storage.entries, 120, t);
    NewestSize(storage.entries, 120);
  }

  lemma OtherChoiceKeepsChosen(storage: Storage, u: Key, d: Mode, now: nat, t: Key, c: Choice)
    requires Inv(storage) && Chosen(storage, t, c) && |storage.entries| < 120 && u != t
    ensures Chosen(SetThreadOverride(storage, u, d, now), t, c)
    ensures |SetThreadOverride(storage, u, d, now).entries| <= |storage.entries| + 1
  {
    if u == "" {
      DraftIsKept(storage, d, now, now, t);
      NewestSize(storage.entries, 120);
    } else {
      OthersKeepTheirs(storage, u, d, now, t);
      if d.Some? {
        PutRoom(storage.entries, 120, Entry(u, d.value, now));
      } else {
        RemoveSize(storage.entries, u);
        NewestSize(Remove(storage.entries, u), 120);
      }
    }
  }

  lemma ShowKeepsChosen(storage: Storage, u: Key, now: nat, t: Key, c: Choice)
    requires Inv(storage) && Chosen(storage, t, c) && |storage.entries| < 120
    ensures Chosen(BindDraft(storage, u, now), t, c)
    ensures |BindDraft(storage, u, now).entries| <= |storage.entries| + 1
  {
    NewestSize(storage.entries, 120);
    NotFullFind(storage.entries, 120, t);
    if u != t {
      BindingKeepsOthers(storage, u, now, t);
      if CurrentDraft(storage, now).Some? {
        PutRoom(storage.entries, 120, Entry(u, CurrentDraft(storage, now).value, now));
      }
    }
  }

  lemma StepKeepsChosen(storage: Storage, action: Action, now: nat, t: Key, c: Choice)
    requires Inv(storage) && Chosen(storage, t, c) && |storage.entries| < 120 && !Displaces(action, t)
    ensures Chosen(Act(storage, action, now), t, c)
    ensures |Act(storage, action, now).entries| <= |storage.entries| + 1
  {
    match action
    case ChooseControl(_, _, _) => ControlKeepsChosen(storage, t, c);
    case ChooseThread(u, d, _, _) => if u != t { OtherChoiceKeepsChosen(storage, u, d, now, t, c); }
    case ShowThread(u) => ShowKeepsChosen(storage, u, now, t, c);
  }

  lemma {:induction false} RunKeepsChosen(storage: Storage, run: seq<(Action, nat)>, t: Key, c: Choice)
    requires Inv(storage) && Chosen(storage, t, c) && |storage.entries| + |run| <= 120
    requires forall i :: 0 <= i < |run| ==> !Displaces(run[i].0, t)
    ensures Chosen(Run(storage, run), t, c)
    decreases |run|
  {
    if run != [] {
      StepKeepsChosen(storage, run[0].0, run[0].1, t, c);
      ActKeepsInv(storage, run[0].0, run[0].1);
      RunKeepsChosen(Act(storage, run[0].0, run[0].1), run[1..], t, c);
    }
  }

  // ---- From the action to the request ----

  /** The request is one for the thread: by its own fields, by the caller's hint, or, unless it starts a
      thread, by what is on show. */
  predicate IsFor(method_: Method, params: Params, hint: Key, shown: Key, t: Key) {
    match method_
    case ThreadStart => params.threadId == t || (params.threadId == "" && hint == t)
    case OtherMethod => false
    case _ =>
      || params.threadId == t
      || (params.threadId == "" && params.conversationId == t)
      || (params.threadId == "" && params.conversationId == "" && hint == t)
      || (params.threadId == "" && params.conversationId == "" && hint == "" && shown == t)
  }

  /** The model of the request, or the current one, is known to have the fast tier. */
  predicate HasFast(env: Env, params: Params) {
    var model := Lower(Trim(JavaScript, if Trim(JavaScript, params.model) != "" then params.model else env.currentModel));
    model != "" && model in env.fastModels
  }

  lemma HasFastIsSupported(env: Env, params: Params)
    ensures HasFast(env, params) == FastSupported(env, RequestModel(env, params))
  {
    TrimTwice(JavaScript, params.model);
  }

  /** What a request sent at a choice looks like. */
  predicate SentAt(env: Env, params: Params, out: Params, c: Choice) {
    && out.serviceTier == (if c == Standard then Null else Tier(if env.fastTierValue == "" then "priority" else env.fastTierValue))
    && out.service_tier == (if params.service_tier == Absent then Absent else out.serviceTier)
    && out.threadId == params.threadId && out.conversationId == params.conversationId && out.model == params.model
  }

  lemma PriorityIsFast()
    ensures IsFast(Some("priority"))
  {
    TrimTight(JavaScript, "priority");
    assert Lower("priority") == "priority";
  }

  lemma ModeSends(env: Env, storage: Storage, method_: Method, params: Params, hint: Key, shown: Key, c: Choice)
    requires env.enabled && method_ != OtherMethod && HasFast(env, params)
    requires env.fastTierValue == "" || IsFast(Some(env.fastTierValue))
    requires RequestMode(env, storage, method_, params, hint, shown) == Some(c)
    ensures var out := ApplyOverride(env, storage, method_, params, hint, shown);
            SentAt(env, params, out, c) && (LeavesFast(out) <==> c == Fast)
  {
    PriorityIsFast();
    HasFastIsSupported(env, params);
  }

  lemma ChosenSends(env: Env, storage: Storage, t: Key, c: Choice, method_: Method, params: Params, hint: Key, shown: Key)
    requires env.enabled && t != "" && IsFor(method_, params, hint, shown, t) && Chosen(storage, t, c)
    ensures RequestMode(env, storage, method_, params, hint, shown) == Some(c)
  {
    assert RequestThread(method_, params, hint, shown) == t;
  }

  /** A request for a thread, on a model with the fast tier, leaves fast if and only if the last choice made
      for the thread was fast, whatever was done before it and after it short of another choice for the
      thread, a mode for all threads, or a store with no room left. */
  lemma ChoiceIsSent(before: seq<(Action, nat)>, t: Key, c: Choice, now: nat, after: seq<(Action, nat)>,
                     env: Env, method_: Method, params: Params, hint: Key, shown: Key)
    requires t != "" && forall i :: 0 <= i < |after| ==> !Displaces(after[i].0, t)
    requires |Run(EMPTY_STORAGE, before).entries| + 1 + |after| <= 120
    requires env.enabled && IsFor(method_, params, hint, shown, t) && HasFast(env, params)
    requires env.fastTierValue == "" || IsFast(Some(env.fastTierValue))
    ensures var storage := Run(Act(Run(EMPTY_STORAGE, before), ChooseThread(t, Some(c), true, true), now), after);
            var out := ApplyOverride(env, storage, method_, params, hint, shown);
            SentAt(env, params, out, c) && (LeavesFast(out) <==> c == Fast)
  {
    var s0 := Run(EMPTY_STORAGE, before);
    RunKeepsInv(EMPTY_STORAGE, before);
    var s1 := Act(s0, ChooseThread(t, Some(c), true, true), now);
    ChosenIsKept(s0, t, Some(c), now);
    ActKeepsInv(s0, ChooseThread(t, Some(c), true, true), now);
    PutRoom(s0.entries, 120, Entry(t, c, now));
    RunKeepsChosen(s1, after, t, c);
    ChosenSends(env, Run(s1, after), t, c, method_, params, hint, shown);
    ModeSends(env, Run(s1, after), method_, params, hint, shown, c);
  }

  /** The same for a choice made before the thread had an id, and bound to it within the minute. */
  lemma DraftIsSent(before: seq<(Action, nat)>, c: Choice, at: nat, t: Key, now: nat, after: seq<(Action, nat)>,
                    env: Env, method_: Method, params: Params, hint: Key, shown: Key)
    requires t != "" && Override(Run(EMPTY_STORAGE, before), t) == None && at <= now <= at + 60_000
    requires forall i :: 0 <= i < |after| ==> !Displaces(after[i].0, t)
    requires |Run(EMPTY_STORAGE, before).entries| + 1 + |after| <= 120
    requires env.enabled && IsFor(method_, params, hint, shown, t) && HasFast(env, params)
    requires env.fastTierValue == "" || IsFast(Some(env.fastTierValue))
    ensures var drafted := Act(Run(EMPTY_STORAGE, before), ChooseThread("", Some(c), true, true), at);
            var storage := Run(Act(drafted, ShowThread(t), now), after);
            var out := ApplyOverride(env, storage, method_, params, hint, shown);
            SentAt(env, params, out, c) && (LeavesFast(out) <==> c == Fast)
  {
    var s0 := Run(EMPTY_STORAGE, before);
    RunKeepsInv(EMPTY_STORAGE, before);
    var s1 := BoundDraft(s0, c, at, t, now);
    RunKeepsChosen(s1, after, t, c);
    ChosenSends(env, Run(s1, after), t, c, method_, params, hint, shown);
    ModeSends(env, Run(s1, after), method_, params, hint, shown, c);
  }

  lemma BoundDraft(s0: Storage, c: Choice, at: nat, t: Key, now: nat) returns (s2: Storage)
    requires Inv(s0) && t != "" && Override(s0, t) == None && at <= now <= at + 60_000 && |s0.entries| < 120
    ensures s2 == Act(Act(s0, ChooseThread("", Some(c), true, true), at), ShowThread(t), now)
    ensures Inv(s2) && Chosen(s2, t, c) && |s2.entries| <= |s0.entries| + 1
  {
    var s1 := Act(s0, ChooseThread("", Some(c), true, true), at);
    ActKeepsInv(s0, ChooseThread("", Some(c), true, true), at);
    DraftIsKept(s0, Some(c), at, now, t);
    NewestSize(s0.entries, 120);
    s2 := Act(s1, ShowThread(t), now);
    ActKeepsInv(s1, ShowThread(t), now);
    DraftIsBound(s1, t, c, at, now);
    PutRoom(s1.entries, 120, Entry(t, c, now));
  }

  // ---- Threads without a choice of their own ----

  /** An action that gives the thread a choice, or sets a mode for all threads. */
  predicate Touches(action: Action, t: Key) {
    match action
    case ChooseControl(mode, _, _) => Accepted(action) && mode != Custom
    case ChooseThread(thread, choice, _, _) => Accepted(action) && thread == t && choice.Some?
    case ShowThread(thread) => thread == t
  }

  /** The mode for all threads, or the custom mode with that default, and nothing chosen for the thread. */
  ghost predicate AtDefault(storage: Storage, t: Key, control: Control) {
    && Read(storage).defaultMode == DefaultFor(control)
    && (Read(storage).mode == control || (Read(storage).mode == Custom && Override(storage, t) == None))
  }

  lemma StepKeepsDefault(storage: Storage, action: Action, now: nat, t: Key, control: Control)
    requires Inv(storage) && t != "" && control != Custom && AtDefault(storage, t, control) && !Touches(action, t)
    ensures AtDefault(Act(storage, action, now), t, control)
  {
    match action
    case ChooseControl(_, _, _) => NewestFind(storage.entries, 120, t);
    case ChooseThread(u, d, _, _) =>
      if u == "" {
        DraftIsKept(storage, d, now, now, t);
      } else if u == t {
        if d == None { ChosenIsKept(storage, t, None, now); }
      } else {
        OthersKeepTheirs(storage, u, d, now, t);
      }
    case ShowThread(u) => BindingKeepsOthers(storage, u, now, t);
  }

  lemma {:induction false} RunKeepsDefault(storage: Storage, run: seq<(Action, nat)>, t: Key, control: Control)
    requires Inv(storage) && t != "" && control != Custom && AtDefault(storage, t, control)
    requires forall i :: 0 <= i < |run| ==> !Touches(run[i].0, t)
    ensures AtDefault(Run(storage, run), t, control)
    decreases |run|
  {
    if run != [] {
      StepKeepsDefault(storage, run[0].0, run[0].1, t, control);
      ActKeepsInv(storage, run[0].0, run[0].1);
      RunKeepsDefault(Act(storage, run[0].0, run[0].1), run[1..], t, control);
    }
  }

  /** What a request of a thread at the default looks like. */
  predicate SentAtDefault(env: Env, params: Params, out: Params, control: Control) {
    match control
    case GlobalFast => SentAt(env, params, out, Fast) && LeavesFast(out)
    case GlobalStandard => SentAt(env, params, out, Standard) && !LeavesFast(out)
    case _ => out == params
  }

  lemma DefaultSends(env: Env, storage: Storage, t: Key, control: Control, method_: Method, params: Params, hint: Key, shown: Key)
    requires t != "" && control != Custom && AtDefault(storage, t, control)
    requires env.enabled && IsFor(method_, params, hint, shown, t) && HasFast(env, params)
    requires env.fastTierValue == "" || IsFast(Some(env.fastTierValue))
    ensures SentAtDefault(env, params, ApplyOverride(env, storage, method_, params, hint, shown), control)
  {
    assert RequestThread(method_, params, hint, shown) == t;
    HasFastIsSupported(env, params);
    match control
    case GlobalFast => ModeSends(env, storage, method_, params, hint, shown, Fast);
    case GlobalStandard => ModeSends(env, storage, method_, params, hint, shown, Standard);
    case _ =>
  }

  /** After a mode is set for all threads, the requests of a thread that is given no choice of its own leave
      fast in the fast mode, not fast in the standard mode, and unchanged otherwise, also once the custom
      mode is entered for other threads. */
  lemma ControlIsSent(before: seq<(Action, nat)>, control: Control, now: nat, after: seq<(Action, nat)>, t: Key,
                      env: Env, method_: Method, params: Params, hint: Key, shown: Key)
    requires t != "" && control != Custom && forall i :: 0 <= i < |after| ==> !Touches(after[i].0, t)
    requires env.enabled && IsFor(method_, params, hint, shown, t) && HasFast(env, params)
    requires env.fastTierValue == "" || IsFast(Some(env.fastTierValue))
    ensures var storage := Run(Act(Run(EMPTY_STORAGE, before), ChooseControl(control, true, true), now), after);
            SentAtDefault(env, params, ApplyOverride(env, storage, method_, params, hint, shown), control)
  {
    var s0 := Run(EMPTY_STORAGE, before);
    RunKeepsInv(EMPTY_STORAGE, before);
    var s1 := Act(s0, ChooseControl(control, true, true), now);
    ActKeepsInv(s0, ChooseControl(control, true, true), now);
    RunKeepsDefault(s1, after, t, control);
    DefaultSends(env, Run(s1, after), t, control, method_, params, hint, shown);
  }

  /** The last mode set for all threads. */
  function LastControl(control: Control, run: seq<(Action, nat)>): Control
    decreases |run|
  {
    if run == [] then control
    else
      var action := run[0].0;
      LastControl(if action.ChooseControl? && Accepted(action) && action.mode != Custom then action.mode else control, run[1..])
  }

  lemma {:induction false} DefaultIsLastControl(storage: Storage, run: seq<(Action, nat)>, control: Control)
    requires Inv(storage) && control != Custom && Read(storage).defaultMode == DefaultFor(control)
    ensures LastControl(control, run) != Custom
    ensures Read(Run(storage, run)).defaultMode == DefaultFor(LastControl(control, run))
    decreases |run|
  {
    if run != [] {
      ActKeepsInv(storage, run[0].0, run[0].1);
      var action := run[0].0;
      var next := if action.ChooseControl? && Accepted(action) && action.mode != Custom then action.mode else control;
      DefaultIsLastControl(Act(storage, run[0].0, run[0].1), run[1..], next);
    }
  }

  /** After inherit is chosen for a thread it is back at the last mode set for all threads. */
  lemma InheritIsSent(before: seq<(Action, nat)>, t: Key, now: nat, after: seq<(Action, nat)>,
                      env: Env, method_: Method, params: Params, hint: Key, shown: Key)
    requires t != "" && forall i :: 0 <= i < |after| ==> !Touches(after[i].0, t)
    requires env.enabled && IsFor(method_, params, hint, shown, t) && HasFast(env, params)
    requires env.fastTierValue == "" || IsFast(Some(env.fastTierValue))
    ensures var storage := Run(Act(Run(EMPTY_STORAGE, before), ChooseThread(t, None, true, true), now), after);
            SentAtDefault(env, params, ApplyOverride(env, storage, method_, params, hint, shown), LastControl(Inherit, before))
  {
    var control := LastControl(Inherit, before);
    var s0 := Run(EMPTY_STORAGE, before);
    RunKeepsInv(EMPTY_STORAGE, before);
    DefaultIsLastControl(EMPTY_STORAGE, before, Inherit);
    var s1 := Act(s0, ChooseThread(t, None, true, true), now);
    ActKeepsInv(s0, ChooseThread(t, None, true, true), now);
    ChosenIsKept(s0, t, None, now);
    RunKeepsDefault(s1, after, t, control);
    DefaultSends(env, Run(s1, after), t, control, method_, params, hint, shown);
  }

  // ---- Requests that are not let through as they are ----

  /** With the feature off, and for other methods, a request leaves as it is. */
  lemma Untouched(env: Env, storage: Storage, method_: Method, params: Params, hint: Key, shown: Key)
    requires !env.enabled || method_ == OtherMethod
    ensures ApplyOverride(env, storage, method_, params, hint, shown) == params
  {
  }

  /** The fast mode chosen for a thread sends no tier, in either spelling, for a model without the fast tier. */
  lemma FastIsBlocked(env: Env, storage: Storage, t: Key, method_: Method, params: Params, hint: Key, shown: Key)
    requires t != "" && Chosen(storage, t, Fast) && env.enabled && IsFor(method_, params, hint, shown, t) && !HasFast(env, params)
    requires env.fastTierValue == "" || IsFast(Some(env.fastTierValue))
    ensures ApplyOverride(env, storage, method_, params, hint, shown) == params.(serviceTier := Null, service_tier := Null)
  {
    PriorityIsFast();
    HasFastIsSupported(env, params);
    ChosenSends(env, storage, t, Fast, method_, params, hint, shown);
  }

  /** Without a mode, a request that asks for the fast tier on a model without it loses its tier; every other
      one leaves as it is. */
  lemma InheritedIsBlocked(env: Env, storage: Storage, t: Key, method_: Method, params: Params, hint: Key, shown: Key)
    requires t != "" && AtDefault(storage, t, Inherit) && env.enabled && IsFor(method_, params, hint, shown, t)
    ensures var asked := if params.serviceTier.Tier? then Some(params.serviceTier.value)
                         else if params.service_tier.Tier? then Some(params.service_tier.value)
                         else env.inherited;
            ApplyOverride(env, storage, method_, params, hint, shown)
            == if IsFast(asked) && !HasFast(env, params) then params.(serviceTier := Null, service_tier := Null) else params
  {
    assert RequestThread(method_, params, hint, shown) == t;
    HasFastIsSupported(env, params);
  }

  /** A tier is fast if it is one of the two words, whatever its case and the white space around it. */
  lemma FastWords(before: string, word: string, after: string)
    requires Blank(JavaScript, before) && Blank(JavaScript, after) && Tight(JavaScript, word)
    ensures IsFast(Some(before + word + after)) <==> Lower(word) == "fast" || Lower(word) == "priority"
  {
    TrimUnique(JavaScript, before, word, after);
  }

  /** The tier shown for a thread is that of its choice, or of the mode for all threads. */
  lemma TierIsShown(env: Env, storage: Storage, t: Key, c: Choice, control: Control)
    requires t != ""
    ensures var fast := if env.fastTierValue == "" then "priority" else env.fastTierValue;
            && (Chosen(storage, t, c) ==> EffectiveTier(env, storage, t) == if c == Fast then Some(fast) else None)
            && (control != Custom && AtDefault(storage, t, control) ==>
                  EffectiveTier(env, storage, t)
                  == if control == GlobalFast then Some(fast) else if control == GlobalStandard then None else env.inherited)
  {
  }
}
