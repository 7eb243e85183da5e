/** What the loader's history is, from the calls and the ends of loads alone. */
module AppModuleRuns {
  import opened AppModules

  /** The events of a prefix after one more action. A load is two events, its start and its end. */
  function Extended(h: seq<Event>, a: Action, name: string): seq<Event> {
    match a
    case CallFor(called, now) =>
      if called == name && (h == [] || (h[|h| - 1].Fail? && |h| < 16 && now >= h[|h| - 1].at + 30_000))
      then h + [Start(now)] else h
    case SettleFor(settled, ok, now) =>
      if settled == name && h != [] && h[|h| - 1].Start? then h + [if ok then Succeed(now) else Fail(now)] else h
  }

  function HistoryOf(h: seq<Event>, actions: seq<Action>, name: string): seq<Event>
    decreases |actions|
  {
    if actions == [] then h else HistoryOf(Extended(h, actions[0], name), actions[1..], name)
  }

  lemma {:induction false} StartsAreHalf(h: seq<Event>)
    requires forall i :: 0 <= i < |h| ==> (h[i].Start? <==> i % 2 == 0)
    ensures Starts(h) == (|h| + 1) / 2
  {
    if h != [] { StartsAreHalf(h[..|h| - 1]); }
  }

  lemma {:induction false} Alternates(h: seq<Event>, i: nat)
    requires Legal(h) && i < |h|
    ensures h[i].Start? <==> i % 2 == 0
  {
    if i > 0 { Alternates(h, i - 1); }
  }

  lemma LoadsOf(h: seq<Event>)
    requires Legal(h)
    ensures Starts(h) == (|h| + 1) / 2
    ensures h != [] ==> (h[|h| - 1].Start? <==> |h| % 2 == 1)
  {
    forall i | 0 <= i < |h| ensures h[i].Start? <==> i % 2 == 0 { Alternates(h, i); }
    StartsAreHalf(h);
  }

  /** One action extends the history of a prefix by what happened, or not at all. */
  lemma StepExtends(s: State, a: Action, name: string)
    requires Consistent(s, name)
    ensures History(Step(s, a), name) == Extended(History(s, name), a, name)
  {
    LoadsOf(History(s, name));
  }

  lemma {:induction false} RunExtends(s: State, actions: seq<Action>, name: string)
    requires Consistent(s, name)
    ensures History(Run(s, actions), name) == HistoryOf(History(s, name), actions, name)
    decreases |actions|
  {
    if actions != [] {
      StepExtends(s, actions[0], name);
      match actions[0] {
        case CallFor(called, now) => CallKeepsConsistent(s, called, now, name);
        case SettleFor(settled, ok, now) => SettleKeepsConsistent(s, settled, ok, now, name);
      }
      RunExtends(Step(s, actions[0]), actions[1..], name);
    }
  }

  /** A call joins a load that runs or succeeded, is refused within half a minute of a failure and after
      eight loads, and starts one otherwise, all by what the actions before it were. */
  lemma OutcomeOf(actions: seq<Action>, name: string, now: nat)
    ensures var h := HistoryOf([], actions, name);
            CallOutcome(Run(INITIAL, actions), name, now)
            == if h == [] then Started
               else if h[|h| - 1].Start? || h[|h| - 1].Succeed? then Joined
               else if |h| >= 16 || now < h[|h| - 1].at + 30_000 then Refused
               else Started
  {
    RunKeepsConsistent(INITIAL, actions, name);
    RunExtends(INITIAL, actions, name);
    LoadsOf(HistoryOf([], actions, name));
  }
}
