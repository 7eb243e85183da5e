/** The asset module loader: one shared promise per asset prefix, remembered failures, a cooldown
    between attempts and a cap on their number. */
module AppModules {
  const RETRY_COOLDOWN_MS: nat := 30_000
  const MAX_ATTEMPTS: nat := 8

  datatype Promise = Loading | Loaded

  datatype Failure = Failure(at: nat, attempts: nat)

  /** What happened to the asset of a prefix. */
  datatype Event = Start(at: nat) | Succeed(at: nat) | Fail(at: nat)

  /** The loader's two maps, and the history of each prefix, which the code does not keep. */
  datatype State = State(promises: map<string, Promise>, failures: map<string, Failure>, history: map<string, seq<Event>>)

  const INITIAL := State(map[], map[], map[])

  function History(s: State, name: string): seq<Event> {
    if name in s.history then s.history[name] else []
  }

  function Record(s: State, name: string, e: Event): map<string, seq<Event>> {
    s.history[name := History(s, name) + [e]]
  }

  datatype Outcome = Started | Joined | Refused

  function CallOutcome(s: State, name: string, now: nat): Outcome {
    if name in s.promises then Joined
    else if name in s.failures
            && (s.failures[name].attempts >= MAX_ATTEMPTS || now - s.failures[name].at < RETRY_COOLDOWN_MS) then Refused
    else Started
  }

  /** A caller asks for the module. */
  function Call(s: State, name: string, now: nat): State {
    if CallOutcome(s, name, now) != Started then s
    else s.(promises := s.promises[name := Loading], history := Record(s, name, Start(now)))
  }

  /** The load in progress ends. */
  function Settle(s: State, name: string, ok: bool, now: nat): State {
    if name !in s.promises || s.promises[name] != Loading then s
    else if ok then
      State(s.promises[name := Loaded], s.failures - {name}, Record(s, name, Succeed(now)))
    else
      var attempts := if name in s.failures then s.failures[name].attempts else 0;
      State(s.promises - {name}, s.failures[name := Failure(now, attempts + 1)], Record(s, name, Fail(now)))
  }

  datatype Action = CallFor(name: string, now: nat) | SettleFor(name: string, ok: bool, now: nat)

  function Step(s: State, a: Action): State {
    match a
    case CallFor(name, now) => Call(s, name, now)
    case SettleFor(name, ok, now) => Settle(s, name, ok, now)
  }

  function Run(s: State, actions: seq<Action>): State
    decreases |actions|
  {
    if actions == [] then s else Run(Step(s, actions[0]), actions[1..])
  }

  class Loader {
    var promises: map<string, Promise>
    var failures: map<string, Failure>
    ghost var history: map<string, seq<Event>>

    ghost function Model(): State
      reads this
    {
      State(promises, failures, history)
    }

    constructor ()
      ensures Model() == INITIAL
    {
      promises, failures, history := map[], map[], map[];
    }

    method Request(name: string, now: nat) returns (outcome: Outcome)
      modifies this
      ensures outcome == CallOutcome(old(Model()), name, now) && Model() == Call(old(Model()), name, now)
    {
      if name in promises { return Joined; }
      if name in failures {
        var failure := failures[name];
        if failure.attempts >= MAX_ATTEMPTS || now - failure.at < RETRY_COOLDOWN_MS { return Refused; }
      }
      history := Record(Model(), name, Start(now));
      promises := promises[name := Loading];
      outcome := Started;
    }

    method Finish(name: string, ok: bool, now: nat)
      requires name in promises && promises[name] == Loading
      modifies this
      ensures Model() == Settle(old(Model()), name, ok, now)
    {
      history := Record(Model(), name, if ok then Succeed(now) else Fail(now));
      if ok {
        failures := failures - {name};
        promises := promises[name := Loaded];
      } else {
        promises := promises - {name};
        var attempts := if name in failures then failures[name].attempts else 0;
        failures := failures[name := Failure(now, attempts + 1)];
      }
    }
  }

  // ---- The history of one prefix ----

  function Starts(h: seq<Event>): nat {
    if h == [] then 0 else Starts(h[..|h| - 1]) + if h[|h| - 1].Start? then 1 else 0
  }

  /** When a new load may start, in terms of the history alone. */
  predicate MayStart(h: seq<Event>, now: nat) {
    h == [] || (h[|h| - 1].Fail? && Starts(h) < MAX_ATTEMPTS && now - h[|h| - 1].at >= RETRY_COOLDOWN_MS)
  }

  /** Loads never overlap, each one but the first follows a failure by the cooldown, nothing
      follows a success, and there are at most eight. */
  ghost predicate Legal(h: seq<Event>) {
    && Starts(h) <= MAX_ATTEMPTS
    && (forall i :: 0 <= i < |h| && h[i].Start? && i > 0 ==> h[i - 1].Fail? && h[i].at - h[i - 1].at >= RETRY_COOLDOWN_MS)
    && (forall i :: 0 <= i < |h| && !h[i].Start? ==> i > 0 && h[i - 1].Start?)
  }

  /** The two maps say where the history of a prefix stands. */
  ghost predicate Consistent(s: State, name: string) {
    var h := History(s, name);
    && Legal(h)
    && (name in s.promises <==> h != [] && !h[|h| - 1].Fail?)
    && (name in s.promises ==> (s.promises[name] == Loaded <==> h[|h| - 1].Succeed?))
    && (h != [] && h[|h| - 1].Fail? ==> name in s.failures && s.failures[name] == Failure(h[|h| - 1].at, Starts(h)))
    && (h != [] && h[|h| - 1].Start? ==>
          (if name in s.failures then s.failures[name].attempts else 0) + 1 == Starts(h))
    && (h == [] ==> name !in s.failures)
  }

  lemma StartsAppend(h: seq<Event>, e: Event)
    ensures Starts(h + [e]) == Starts(h) + if e.Start? then 1 else 0
  {
    assert (h + [e])[..|h + [e]| - 1] == h;
  }

  lemma StartKeepsLegal(h: seq<Event>, now: nat)
    requires Legal(h) && MayStart(h, now)
    ensures Legal(h + [Start(now)]) && Starts(h + [Start(now)]) == Starts(h) + 1
  {
    StartsAppend(h, Start(now));
  }

  lemma CallKeepsConsistent(s: State, called: string, now: nat, name: string)
    requires Consistent(s, name)
    ensures Consistent(Call(s, called, now), name)
  {
    if called == name {
      if MayStart(History(s, name), now) { StartKeepsLegal(History(s, name), now); }
    }
  }

  lemma EndKeepsLegal(h: seq<Event>, e: Event)
    requires Legal(h) && h != [] && h[|h| - 1].Start? && !e.Start?
    ensures Legal(h + [e]) && Starts(h + [e]) == Starts(h)
  {
    StartsAppend(h, e);
  }

  lemma SettleKeepsConsistent(s: State, settled: string, ok: bool, now: nat, name: string)
    requires Consistent(s, name)
    ensures Consistent(Settle(s, settled, ok, now), name)
  {
    if settled == name && name in s.promises && s.promises[name] == Loading {
      EndKeepsLegal(History(s, name), if ok then Succeed(now) else Fail(now));
    }
  }

  lemma {:induction false} RunKeepsConsistent(s: State, actions: seq<Action>, name: string)
    requires Consistent(s, name)
    ensures Consistent(Run(s, actions), name)
    decreases |actions|
  {
    if actions != [] {
      match actions[0] {
        case CallFor(called, now) => CallKeepsConsistent(s, called, now, name);
        case SettleFor(settled, ok, now) => SettleKeepsConsistent(s, settled, ok, now, name);
      }
      RunKeepsConsistent(Step(s, actions[0]), actions[1..], name);
    }
  }

  /** Over any run and any pattern of calls, the loads of a prefix are at most eight, one at a
      time, half a minute after the previous failure, and none after a success; and a call starts
      one exactly when this history allows it. */
  lemma LoadsAreLegal(actions: seq<Action>, name: string, now: nat)
    ensures var s := Run(INITIAL, actions);
            && Legal(History(s, name))
            && (CallOutcome(s, name, now) == Started <==> MayStart(History(s, name), now))
  {
    RunKeepsConsistent(INITIAL, actions, name);
  }
}
