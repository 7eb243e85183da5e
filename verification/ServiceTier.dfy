/** The service tier override: which tier a thread runs at, kept in local storage, and what it
    does to the tier fields of an outgoing request. */
module ServiceTier {
  import opened Wrappers
  import opened Text
  import opened Recency

  const MAX_ENTRIES: nat := 120
  const DRAFT_BIND_WINDOW_MS: nat := 60_000
  const FALLBACK_FAST_VALUE: string := "priority"

  /** A validated thread key; "" is no key. */
  type Key = string

  datatype Choice = Standard | Fast

  /** A thread mode; `None` is "inherit". */
  type Mode = Option<Choice>

  datatype Control = Inherit | GlobalStandard | GlobalFast | Custom

  datatype Draft = Draft(choice: Choice, at: nat)

  /** What local storage holds. A storage written by an older version has no modes. */
  datatype Storage = Storage(mode: Option<Control>, defaultMode: Option<Mode>, entries: Store<Choice>, draft: Option<Draft>)

  const EMPTY_STORAGE := Storage(None, None, [], None)

  datatype State = State(mode: Control, defaultMode: Mode, entries: Store<Choice>, draft: Option<Draft>)

  function DefaultFor(mode: Control): Mode {
    match mode
    case GlobalFast => Some(Fast)
    case GlobalStandard => Some(Standard)
    case _ => None
  }

  function Read(storage: Storage): State {
    var mode := if storage.mode.Some? then storage.mode.value
                else if storage.draft.Some? || storage.entries != [] then Custom
                else Inherit;
    State(mode, storage.defaultMode.GetOr(DefaultFor(mode)), storage.entries, storage.draft)
  }

  function Write(s: State): Storage {
    Storage(Some(s.mode), Some(s.defaultMode), Newest(s.entries, MAX_ENTRIES), s.draft)
  }

  function Override(storage: Storage, thread: Key): Mode {
    var entry := if thread != "" then Find(Read(storage).entries, thread) else None;
    if entry.Some? then Some(entry.value.value) else None
  }

  /** The mode chosen for a thread that has no id yet, while it is recent. */
  function CurrentDraft(storage: Storage, now: nat): Mode {
    var draft := Read(storage).draft;
    if draft.Some? && now - draft.value.at <= DRAFT_BIND_WINDOW_MS then Some(draft.value.choice) else None
  }

  // ---- What the user and the page do ----

  function SetThreadOverride(storage: Storage, thread: Key, mode: Mode, now: nat): Storage {
    var s := Read(storage).(mode := Custom);
    Write(if thread != "" then
            s.(entries := if mode.None? then Remove(s.entries, thread) else Put(s.entries, Entry(thread, mode.value, now)))
          else
            s.(draft := if mode.None? then None else Some(Draft(mode.value, now))))
  }

  function BindDraft(storage: Storage, thread: Key, now: nat): Storage {
    var draft := CurrentDraft(storage, now);
    if thread == "" || draft.None? then storage
    else
      var s := Read(storage).(draft := None);
      if s.mode != Custom || Find(s.entries, thread).Some? then Write(s)
      else Write(s.(entries := Put(s.entries, Entry(thread, draft.value, now))))
  }

  function SetControlMode(storage: Storage, mode: Control): Storage {
    var s := Read(storage);
    Write(if mode == Custom then s.(mode := Custom) else State(mode, DefaultFor(mode), [], None))
  }

  /** The buttons refuse to act without the backend, and "fast" without a model that has it. */
  datatype Action =
    | ChooseControl(mode: Control, connected: bool, fastAvailable: bool)
    | ChooseThread(thread: Key, choice: Mode, connected: bool, fastAvailable: bool)
    | ShowThread(thread: Key)

  function Act(storage: Storage, action: Action, now: nat): Storage {
    match action
    case ChooseControl(mode, connected, fastAvailable) =>
      if !connected || (mode == GlobalFast && !fastAvailable) then storage else SetControlMode(storage, mode)
    case ChooseThread(thread, choice, connected, fastAvailable) =>
      if !connected || (choice == Some(Fast) && !fastAvailable) then storage
      else SetThreadOverride(storage, thread, choice, now)
    case ShowThread(thread) => BindDraft(storage, thread, now)
  }

  /** Actions with the times they happen at. */
  function Run(storage: Storage, actions: seq<(Action, nat)>): Storage
    decreases |actions|
  {
    if actions == [] then storage
    else Run(Act(storage, actions[0].0, actions[0].1), actions[1..])
  }

  /** The storage as the page keeps it, with the handlers that rewrite it. */
  class Page {
    var storage: Storage

    constructor ()
      ensures storage == EMPTY_STORAGE && Inv(storage)
    {
      storage := EMPTY_STORAGE;
      new;
    }

    method SetOverride(thread: Key, mode: Mode, now: nat)
      modifies this
      ensures storage == SetThreadOverride(old(storage), thread, mode, now)
    {
      var s := Read(storage);
      s := s.(mode := Custom);
      if thread != "" {
        if mode.None? {
          s := s.(entries := Remove(s.entries, thread));
        } else {
          s := s.(entries := Put(s.entries, Entry(thread, mode.value, now)));
        }
      } else if mode.None? {
        s := s.(draft := None);
      } else {
        s := s.(draft := Some(Draft(mode.value, now)));
      }
      storage := Write(s);
    }

    method BindDraftTo(thread: Key, now: nat)
      modifies this
      ensures storage == BindDraft(old(storage), thread, now)
    {
      var draft := CurrentDraft(storage, now);
      if thread == "" || draft.None? { return; }
      var s := Read(storage);
      if s.mode == Custom && Find(s.entries, thread).None? {
        s := s.(entries := Put(s.entries, Entry(thread, draft.value, now)));
      }
      s := s.(draft := None);
      storage := Write(s);
    }

    method SetMode(mode: Control)
      modifies this
      ensures storage == SetControlMode(old(storage), mode)
    {
      var s := Read(storage);
      s := s.(mode := mode);
      if mode != Custom {
        s := s.(defaultMode := DefaultFor(mode), entries := [], draft := None);
      }
      storage := Write(s);
    }

    /** One action of the user or the page; the invariant of the storage is kept. */
    method Handle(action: Action, now: nat)
      requires Inv(storage)
      modifies this
      ensures storage == Act(old(storage), action, now) && Inv(storage)
    {
      ActKeepsInv(storage, action, now);
      match action {
        case ChooseControl(mode, connected, fastAvailable) =>
          if !connected || (mode == GlobalFast && !fastAvailable) { return; }
          SetMode(mode);
        case ChooseThread(thread, choice, connected, fastAvailable) =>
          if !connected || (choice == Some(Fast) && !fastAvailable) { return; }
          SetOverride(thread, choice, now);
        case ShowThread(thread) =>
          BindDraftTo(thread, now);
      }
    }
  }

  // ---- Tiers ----

  /** What the tier decisions read besides the storage. */
  datatype Env = Env(
    enabled: bool,
    inherited: Option<string>,    // the tier Codex itself would use
    fastTierValue: string,
    currentModel: string,
    fastModels: set<string>,      // normalized names of the models known or declared to have it
    now: nat)

  predicate IsFast(tier: Option<string>) {
    tier.Some? && (Lower(Trim(JavaScript, tier.value)) == "fast" || Lower(Trim(JavaScript, tier.value)) == "priority")
  }

  function FastValue(env: Env): string {
    if env.fastTierValue != "" then env.fastTierValue else FALLBACK_FAST_VALUE
  }

  predicate FastSupported(env: Env, model: string) {
    var name := Lower(Trim(JavaScript, model));
    name != "" && name in env.fastModels
  }

  function ValueForMode(env: Env, mode: Mode): Option<string> {
    match mode
    case Some(Fast) => Some(FastValue(env))
    case Some(Standard) => None
    case None => env.inherited
  }

  function EffectiveMode(mode: Mode, defaultMode: Mode): Mode {
    if mode.Some? then mode else defaultMode
  }

  function ModeShown(storage: Storage, thread: Key, now: nat): Mode {
    if thread != "" then Override(storage, thread) else CurrentDraft(storage, now)
  }

  /** The tier shown for a thread, or for the thread being drafted. */
  function EffectiveTier(env: Env, storage: Storage, thread: Key): Option<string> {
    var s := Read(storage);
    match s.mode
    case GlobalFast => Some(FastValue(env))
    case GlobalStandard => None
    case Inherit => env.inherited
    case Custom => ValueForMode(env, EffectiveMode(ModeShown(storage, thread, env.now), s.defaultMode))
  }

  // ---- Requests ----

  /** A property of the request parameters: missing, null, or a text. */
  datatype Field = Absent | Null | Tier(value: string)

  datatype Method = ThreadStart | ThreadResume | TurnStart | OtherMethod

  datatype Params = Params(threadId: Key, conversationId: Key, model: string, serviceTier: Field, service_tier: Field)

  function AsTier(field: Field): Option<string> {
    if field.Tier? then Some(field.value) else None
  }

  function AsField(tier: Option<string>): Field {
    if tier.Some? then Tier(tier.value) else Null
  }

  function RequestThread(method_: Method, params: Params, hint: Key, shown: Key): Key {
    if method_ == ThreadStart then FirstOf(params.threadId, hint)
    else FirstOf(params.threadId, FirstOf(params.conversationId, FirstOf(hint, shown)))
  }

  function RequestModel(env: Env, params: Params): string {
    FirstOf(Trim(JavaScript, params.model), env.currentModel)
  }

  datatype Result = Result(serviceTier: Option<string>, fastBlocked: bool)

  function OverrideResult(env: Env, params: Params, requested: Option<string>): Result {
    var supported := !IsFast(requested) || FastSupported(env, RequestModel(env, params));
    Result(if IsFast(requested) && supported then Some(FastValue(env)) else None, IsFast(requested) && !supported)
  }

  /** The tier the request asks for itself, or inherits. */
  function InheritedRequest(env: Env, params: Params): Option<string> {
    if params.serviceTier.Tier? then Some(params.serviceTier.value)
    else if params.service_tier.Tier? then Some(params.service_tier.value)
    else env.inherited
  }

  function InheritResult(env: Env, params: Params): Option<Result> {
    var r := OverrideResult(env, params, InheritedRequest(env, params));
    if r.fastBlocked then Some(r) else None
  }

  /** The mode a request runs in: `None` leaves the request its own tier. */
  function RequestMode(env: Env, storage: Storage, method_: Method, params: Params, hint: Key, shown: Key): Mode {
    var s := Read(storage);
    match s.mode
    case Inherit => None
    case GlobalStandard => Some(Standard)
    case GlobalFast => Some(Fast)
    case Custom => EffectiveMode(ModeShown(storage, RequestThread(method_, params, hint, shown), env.now), s.defaultMode)
  }

  function OverrideForRequest(env: Env, storage: Storage, method_: Method, params: Params, hint: Key, shown: Key): Option<Result> {
    if !env.enabled || method_ == OtherMethod then None
    else
      match RequestMode(env, storage, method_, params, hint, shown)
      case None => InheritResult(env, params)
      case Some(Standard) => Some(OverrideResult(env, params, None))
      case Some(Fast) => Some(OverrideResult(env, params, Some(FastValue(env))))
  }

  function ApplyOverride(env: Env, storage: Storage, method_: Method, params: Params, hint: Key, shown: Key): Params {
    var r := OverrideForRequest(env, storage, method_, params, hint, shown);
    if r.None? then params
    else
      var tier := AsField(r.value.serviceTier);
      params.(serviceTier := tier,
              service_tier := if params.service_tier != Absent || r.value.fastBlocked then tier else params.service_tier)
  }

  // ---- Only the custom mode has per-thread choices ----

  ghost predicate Inv(storage: Storage) {
    var s := Read(storage);
    && UniqueKeys(s.entries) && |s.entries| <= MAX_ENTRIES
    && (s.mode != Custom ==> s.entries == [] && s.draft == None && s.defaultMode == DefaultFor(s.mode))
  }

  lemma WriteInv(s: State)
    requires UniqueKeys(s.entries)
    requires s.mode != Custom ==> s.entries == [] && s.draft == None && s.defaultMode == DefaultFor(s.mode)
    ensures Inv(Write(s))
  {
    NewestFind(s.entries, MAX_ENTRIES, "");
  }

  lemma ActKeepsInv(storage: Storage, action: Action, now: nat)
    requires Inv(storage)
    ensures Inv(Act(storage, action, now))
  {
    var s := Read(storage);
    match action
    case ChooseControl(mode, _, _) =>
      WriteInv(if mode == Custom then s.(mode := Custom) else State(mode, DefaultFor(mode), [], None));
    case ChooseThread(thread, choice, _, _) =>
      RemoveFind(s.entries, thread, thread);
      if choice.Some? {
        PutUnique(s.entries, Entry(thread, choice.value, now));
      }
      var c := s.(mode := Custom);
      WriteInv(if thread != "" then
                 c.(entries := if choice.None? then Remove(s.entries, thread) else Put(s.entries, Entry(thread, choice.value, now)))
               else c.(draft := if choice.None? then None else Some(Draft(choice.value, now))));
    case ShowThread(thread) =>
      var draft := CurrentDraft(storage, now);
      WriteInv(s.(draft := None));
      if draft.Some? && s.mode == Custom {
        PutUnique(s.entries, Entry(thread, draft.value, now));
        WriteInv(s.(draft := None, entries := Put(s.entries, Entry(thread, draft.value, now))));
      }
  }

  lemma {:induction false} RunKeepsInv(storage: Storage, actions: seq<(Action, nat)>)
    requires Inv(storage)
    ensures Inv(Run(storage, actions))
    decreases |actions|
  {
    if actions != [] {
      ActKeepsInv(storage, actions[0].0, actions[0].1);
      RunKeepsInv(Act(storage, actions[0].0, actions[0].1), actions[1..]);
    }
  }

  /** From empty storage, after any actions: outside the custom mode there is no per-thread choice
      and no draft, and the default mode is the one the control mode stands for. */
  lemma OnlyCustomHasChoices(actions: seq<(Action, nat)>)
    ensures var s := Read(Run(EMPTY_STORAGE, actions));
            s.mode != Custom ==> s.entries == [] && s.draft == None && s.defaultMode == DefaultFor(s.mode)
  {
    RunKeepsInv(EMPTY_STORAGE, actions);
  }

  // ---- Entering the custom mode changes nothing by itself ----

  lemma EnterCustomKeepsModes(storage: Storage, thread: Key, now: nat)
    requires Inv(storage)
    ensures var after := SetControlMode(storage, Custom);
            && Read(after).defaultMode == Read(storage).defaultMode
            && ModeShown(after, thread, now) == ModeShown(storage, thread, now)
  {
    SortFind(Read(storage).entries, thread);
    SortDescending(Read(storage).entries);
    assert |multiset(SortByAt(Read(storage).entries))| == |SortByAt(Read(storage).entries)|;
    assert |multiset(Read(storage).entries)| == |Read(storage).entries|;
  }

  lemma EnterCustomKeepsTiers(env: Env, actions: seq<(Action, nat)>, thread: Key)
    ensures var storage := Run(EMPTY_STORAGE, actions);
            EffectiveTier(env, SetControlMode(storage, Custom), thread) == EffectiveTier(env, storage, thread)
  {
    var storage := Run(EMPTY_STORAGE, actions);
    RunKeepsInv(EMPTY_STORAGE, actions);
    EnterCustomKeepsModes(storage, thread, env.now);
  }

  lemma EnterCustomKeepsRequests(env: Env, actions: seq<(Action, nat)>, method_: Method, params: Params, hint: Key, shown: Key)
    ensures var storage := Run(EMPTY_STORAGE, actions);
            ApplyOverride(env, SetControlMode(storage, Custom), method_, params, hint, shown)
            == ApplyOverride(env, storage, method_, params, hint, shown)
  {
    var storage := Run(EMPTY_STORAGE, actions);
    RunKeepsInv(EMPTY_STORAGE, actions);
    EnterCustomKeepsModes(storage, RequestThread(method_, params, hint, shown), env.now);
  }

  // ---- No fast request for a model without it ----

  predicate LeavesFast(params: Params) {
    IsFast(AsTier(params.serviceTier)) || IsFast(AsTier(params.service_tier))
  }

  /** One spelling asks for an ordinary tier while the other asks for a fast one. */
  predicate Conflicting(params: Params) {
    params.serviceTier.Tier? && !IsFast(AsTier(params.serviceTier)) && IsFast(AsTier(params.service_tier))
  }

  /** With the feature on, a request of these methods leaves fast for a model without the fast
      tier exactly when it runs in the inherit mode and its two spellings conflict. */
  lemma FastLeaksIff(env: Env, storage: Storage, method_: Method, params: Params, hint: Key, shown: Key)
    requires env.enabled && method_ != OtherMethod && !FastSupported(env, RequestModel(env, params))
    ensures LeavesFast(ApplyOverride(env, storage, method_, params, hint, shown))
            <==> RequestMode(env, storage, method_, params, hint, shown) == None && Conflicting(params)
  {
  }

  /** A request that leaks: it asks for one tier in one spelling and for the fast one in the other. */
  lemma FastLeaks(now: nat)
    ensures var env := Env(true, None, "", "", {}, now);
            var params := Params("", "", "gpt-4", Tier("flex"), Tier("fast"));
            var out := ApplyOverride(env, EMPTY_STORAGE, TurnStart, params, "", "");
            !FastSupported(env, RequestModel(env, params)) && out == params && LeavesFast(out)
  {
    TrimTight(JavaScript, "fast");
    TrimTight(JavaScript, "flex");
    assert Lower("fast") == "fast";
    assert Lower("flex")[1] == 'l';
  }

  /** For a model that has it, the fast mode sends the fast tier, and the standard mode never does. */
  lemma ModeIsSent(env: Env, storage: Storage, method_: Method, params: Params, hint: Key, shown: Key)
    requires env.enabled && method_ != OtherMethod && IsFast(Some(FastValue(env)))
    ensures var out := ApplyOverride(env, storage, method_, params, hint, shown);
            match RequestMode(env, storage, method_, params, hint, shown)
            case Some(Fast) => FastSupported(env, RequestModel(env, params)) ==> out.serviceTier == Tier(FastValue(env))
            case Some(Standard) => !LeavesFast(out)
            case None => FastSupported(env, RequestModel(env, params)) ==> out == params
  {
  }

  /** A request for the thread on show goes out at the tier the badge shows, whenever a mode is
      set and the model has the fast tier. */
  lemma BadgeIsSent(env: Env, storage: Storage, method_: Method, params: Params, shown: Key)
    requires env.enabled && method_ != OtherMethod && IsFast(Some(FastValue(env)))
    requires FastSupported(env, RequestModel(env, params))
    requires RequestThread(method_, params, "", shown) == shown
    requires RequestMode(env, storage, method_, params, "", shown).Some?
    ensures AsTier(ApplyOverride(env, storage, method_, params, "", shown).serviceTier) == EffectiveTier(env, storage, shown)
    ensures IsFast(EffectiveTier(env, storage, shown)) <==> LeavesFast(ApplyOverride(env, storage, method_, params, "", shown))
  {
  }
}
