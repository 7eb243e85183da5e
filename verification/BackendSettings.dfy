/** The optimistic settings store: a write shows at once, and a response counts only if no write
    was made since its request went out. */
module BackendSettings {
  import opened Wrappers

  datatype State<V> = State(
    settings: map<string, V>,
    sequence: nat,           // counts the writes
    pending: map<nat, nat>,  // the sequence number each request in flight was issued under
    nextId: nat)

  function Initial<V>(settings: map<string, V>): State<V> {
    State(settings, 0, map[], 0)
  }

  /** A response without settings is a failure or not a settings object. */
  datatype Action<V> =
    | IssueRead
    | IssueWrite(key: string, value: V)
    | Respond(id: nat, payload: Option<map<string, V>>)

  function Step<V>(s: State<V>, a: Action<V>): State<V> {
    match a
    case IssueRead =>
      s.(pending := s.pending[s.nextId := s.sequence], nextId := s.nextId + 1)
    case IssueWrite(key, value) =>
      State(s.settings[key := value], s.sequence + 1, s.pending[s.nextId := s.sequence + 1], s.nextId + 1)
    case Respond(id, payload) =>
      if id !in s.pending then s
      else s.(settings := if payload.Some? && s.pending[id] == s.sequence then s.settings + payload.value else s.settings,
              pending := s.pending - {id})
  }

  function Run<V>(s: State<V>, run: seq<Action<V>>): State<V>
    decreases |run|
  {
    if run == [] then s else Run(Step(s, run[0]), run[1..])
  }

  class Settings<V> {
    var settings: map<string, V>
    var sequence: nat
    var pending: map<nat, nat>
    var nextId: nat

    ghost function Model(): State<V>
      reads this
    {
      State(settings, sequence, pending, nextId)
    }

    constructor (settings: map<string, V>)
      ensures Model() == Initial(settings)
    {
      this.settings, sequence, pending, nextId := settings, 0, map[], 0;
    }

    /** `loadBackendSettingsState`, up to its await. */
    method BeginLoad() returns (id: nat)
      modifies this
      ensures id == old(nextId) && Model() == Step(old(Model()), IssueRead)
    {
      var seq_ := sequence;
      id := nextId;
      pending, nextId := pending[id := seq_], nextId + 1;
    }

    /** `setBackendSetting`, up to its await. */
    method BeginSet(key: string, value: V) returns (id: nat)
      modifies this
      ensures id == old(nextId) && Model() == Step(old(Model()), IssueWrite(key, value))
    {
      sequence := sequence + 1;
      settings := settings[key := value];
      id := nextId;
      pending, nextId := pending[id := sequence], nextId + 1;
    }

    /** Either of them, when its response arrives. */
    method Complete(id: nat, payload: Option<map<string, V>>)
      requires id in pending
      modifies this
      ensures Model() == Step(old(Model()), Respond(id, payload))
    {
      var issued := pending[id];
      pending := pending - {id};
      if payload.None? { return; }
      if issued != sequence { return; }
      settings := settings + payload.value;
    }
  }

  // ---- Every interleaving ----

  ghost predicate Inv<V>(s: State<V>) {
    forall id :: id in s.pending ==> id < s.nextId && s.pending[id] <= s.sequence
  }

  lemma {:induction false} RunKeepsInv<V>(s: State<V>, run: seq<Action<V>>)
    requires Inv(s)
    ensures Inv(Run(s, run)) && Run(s, run).sequence >= s.sequence && Run(s, run).nextId >= s.nextId
    decreases |run|
  {
    if run != [] {
      RunKeepsInv(Step(s, run[0]), run[1..]);
    }
  }

  ghost predicate Writes<V(!new)>(run: seq<Action<V>>) {
    exists i :: 0 <= i < |run| && run[i].IssueWrite?
  }

  ghost predicate Answers<V(!new)>(run: seq<Action<V>>, id: nat) {
    exists i :: 0 <= i < |run| && run[i].Respond? && run[i].id == id
  }

  /** The sequence number stays exactly as long as nothing is written, and a request stays in
      flight, with the number it was issued under, until it is answered. */
  lemma {:induction false} RunTracksWrites<V(!new)>(s: State<V>, run: seq<Action<V>>, id: nat)
    requires Inv(s) && id in s.pending
    ensures Run(s, run).sequence == s.sequence <==> !Writes(run)
    ensures !Answers(run, id) ==> id in Run(s, run).pending && Run(s, run).pending[id] == s.pending[id]
    ensures Answers(run, id) ==> id !in Run(s, run).pending
    decreases |run|
  {
    if run != [] {
      var s', rest := Step(s, run[0]), run[1..];
      assert run == [run[0]] + rest;
      RunKeepsInv(s', rest);
      if id in s'.pending {
        RunTracksWrites(s', rest, id);
      } else {
        AnsweredOnce(s', rest, id);
        SequenceTracksWrites(s', rest);
      }
    }
  }

  lemma {:induction false} SequenceTracksWrites<V(!new)>(s: State<V>, run: seq<Action<V>>)
    requires Inv(s)
    ensures Run(s, run).sequence == s.sequence <==> !Writes(run)
    decreases |run|
  {
    if run != [] {
      var s', rest := Step(s, run[0]), run[1..];
      assert run == [run[0]] + rest;
      RunKeepsInv(s', rest);
      SequenceTracksWrites(s', rest);
    }
  }

  lemma {:induction false} AnsweredOnce<V(!new)>(s: State<V>, run: seq<Action<V>>, id: nat)
    requires Inv(s) && id !in s.pending && id < s.nextId
    ensures id !in Run(s, run).pending
    decreases |run|
  {
    if run != [] {
      AnsweredOnce(Step(s, run[0]), run[1..], id);
    }
  }

  /** In every interleaving, the first response to a request is applied exactly when no write was
      issued in between. `request` is a read or a write, issued in any reachable state. */
  lemma AppliedIffNoWriteSince<V(!new)>(before: seq<Action<V>>, settings: map<string, V>, request: Action<V>,
                                        run: seq<Action<V>>, payload: map<string, V>)
    requires request.IssueRead? || request.IssueWrite?
    requires !Answers(run, Run(Initial(settings), before).nextId)
    ensures var issued := Run(Initial(settings), before);
            var s := Run(Step(issued, request), run);
            Step(s, Respond(issued.nextId, Some(payload))).settings
            == if Writes(run) then s.settings else s.settings + payload
  {
    var issued := Run(Initial(settings), before);
    RunKeepsInv(Initial(settings), before);
    RunTracksWrites(Step(issued, request), run, issued.nextId);
    RunKeepsInv(Step(issued, request), run);
    if Writes(run) {
      assert Run(Step(issued, request), run).sequence > Step(issued, request).sequence;
    }
  }

  /** After a write, nothing but its own response, the response to a later request, or another
      write of the key changes the written value. */
  lemma {:induction false} WrittenValueStays<V(!new)>(s: State<V>, own: nat, key: string, run: seq<Action<V>>)
    requires Inv(s) && key in s.settings && own < s.nextId
    requires forall id :: id in s.pending && id < own ==> s.pending[id] < s.sequence
    requires forall i :: 0 <= i < |run| ==> (run[i].Respond? ==> run[i].id < own) && (run[i].IssueWrite? ==> run[i].key != key)
    ensures key in Run(s, run).settings && Run(s, run).settings[key] == s.settings[key]
    decreases |run|
  {
    if run != [] {
      WrittenValueStays(Step(s, run[0]), own, key, run[1..]);
    }
  }

  lemma WriteHoldsUntilAnswered<V(!new)>(before: seq<Action<V>>, settings: map<string, V>, key: string, value: V,
                                         run: seq<Action<V>>)
    requires var own := Run(Initial(settings), before).nextId;
             forall i :: 0 <= i < |run| ==> (run[i].Respond? ==> run[i].id < own) && (run[i].IssueWrite? ==> run[i].key != key)
    ensures var s := Run(Step(Run(Initial(settings), before), IssueWrite(key, value)), run);
            key in s.settings && s.settings[key] == value
  {
    var issued := Run(Initial(settings), before);
    RunKeepsInv(Initial(settings), before);
    WrittenValueStays(Step(issued, IssueWrite(key, value)), issued.nextId, key, run);
  }

  // ---- Key by key ----

  /** A read shows nothing, and a write shows its value under its key. */
  lemma IssuedShows<V>(s: State<V>, key: string, value: V, k: string)
    ensures Step(s, IssueRead).settings == s.settings
    ensures var shown := Step(s, IssueWrite(key, value)).settings;
            && (k in shown <==> k == key || k in s.settings)
            && (k in shown ==> shown[k] == if k == key then value else s.settings[k])
  {
  }

  /** A response changes what is shown only if it has a payload and no write was issued since its request;
      then each key has the value of the payload if it is there, and is as it was if it is not. */
  lemma ResponseShows<V(!new)>(before: seq<Action<V>>, settings: map<string, V>, request: Action<V>,
                               run: seq<Action<V>>, payload: Option<map<string, V>>, k: string)
    requires request.IssueRead? || request.IssueWrite?
    requires !Answers(run, Run(Initial(settings), before).nextId)
    ensures var issued := Run(Initial(settings), before);
            var s := Run(Step(issued, request), run);
            var shown := Step(s, Respond(issued.nextId, payload)).settings;
            if payload.None? || Writes(run) then shown == s.settings
            else
              && (k in shown <==> k in payload.value || k in s.settings)
              && (k in shown ==> shown[k] == if k in payload.value then payload.value[k] else s.settings[k])
  {
    if payload.Some? {
      AppliedIffNoWriteSince(before, settings, request, run, payload.value);
    }
  }

  /** A second response to a request changes nothing. */
  lemma AnsweredTwice<V>(s: State<V>, id: nat, first: Option<map<string, V>>, second: Option<map<string, V>>)
    ensures var once := Step(s, Respond(id, first)); Step(once, Respond(id, second)) == once
  {
  }
}
