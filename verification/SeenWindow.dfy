/** The bridge's memory of message ids: a message delivered again within five minutes is dropped. */
module SeenWindow {
  datatype Message = Message(kind: int, user: string, id: string, now: real)

  const WINDOW_SECONDS: real := 300.0

  function Recent(seen: map<string, real>, now: real): (r: map<string, real>)
  {
    map k | k in seen && now - seen[k] <= WINDOW_SECONDS :: seen[k]
  }

  /** Messages of another kind, without a sender, or from the bot itself are not looked at. */
  predicate Relevant(m: Message, account: string) {
    m.kind == 1 && m.user != "" && m.user != account
  }

  function Remember(seen: map<string, real>, m: Message, account: string): map<string, real> {
    if !Relevant(m, account) then seen
    else
      var recent := Recent(seen, m.now);
      if m.id == "" || m.id in recent then recent else recent[m.id := m.now]
  }

  predicate Passes(seen: map<string, real>, m: Message, account: string) {
    Relevant(m, account) && (m.id == "" || m.id !in Recent(seen, m.now))
  }

  class Bridge {
    const account: string
    var seen: map<string, real>

    constructor (account: string)
      ensures this.account == account && seen == map[]
    {
      this.account := account;
      seen := map[];
    }

    /** The part of `process_message` that decides whether a message goes on to be answered. */
    method ProcessMessage(m: Message) returns (handled: bool)
      modifies this
      ensures handled == Passes(old(seen), m, account)
      ensures seen == Remember(old(seen), m, account)
    {
      if m.kind != 1 {
        return false;
      }
      if m.user == "" || m.user == account {
        return false;
      }
      DropOld(m.now);
      if m.id != "" {
        if m.id in seen {
          return false;
        }
        seen := seen[m.id := m.now];
      }
      return true;
    }

    /** Deletes what is older than the window, walking over a copy of the entries. */
    method DropOld(now: real)
      modifies this
      ensures seen == Recent(old(seen), now)
    {
      var items := seen;
      while items != map[]
        invariant forall k :: k in items ==> k in seen && seen[k] == items[k]
        invariant Recent(seen, now) == Recent(old(seen), now)
        invariant forall k :: k in seen ==> k in items || now - seen[k] <= WINDOW_SECONDS
        decreases |items|
      {
        var key :| key in items;
        var ts := items[key];
        if now - ts > WINDOW_SECONDS {
          seen := seen - {key};
        }
        items := items - {key};
      }
    }
  }

  // ---- Whole runs ----

  /** The memory after a run of messages, from an empty memory. */
  function After(run: seq<Message>, account: string): map<string, real> {
    if run == [] then map[] else Remember(After(run[..|run| - 1], account), run[|run| - 1], account)
  }

  /** Whether the message at `j` of a run goes on to be answered. */
  predicate Handled(run: seq<Message>, j: nat, account: string)
    requires j < |run|
  {
    Passes(After(run[..j], account), run[j], account)
  }

  /** The clock does not run backwards. */
  ghost predicate InOrder(run: seq<Message>) {
    forall i, j :: 0 <= i < j < |run| ==> run[i].now <= run[j].now
  }

  /** The message at `j` was answered under this id at this time. */
  ghost predicate AnsweredAt(run: seq<Message>, account: string, j: nat, id: string, t: real) {
    j < |run| && Handled(run, j, account) && run[j].id == id && run[j].now == t
  }

  ghost predicate Justified(run: seq<Message>, account: string, id: string, t: real) {
    exists j: nat :: AnsweredAt(run, account, j, id, t)
  }

  lemma Prefixes(run: seq<Message>, m: Message, j: nat)
    requires j <= |run|
    ensures (run + [m])[..j] == run[..j]
  {
  }

  lemma AnsweredStays(run: seq<Message>, m: Message, account: string, j: nat, id: string, t: real)
    requires j < |run|
    ensures AnsweredAt(run, account, j, id, t) <==> AnsweredAt(run + [m], account, j, id, t)
  {
    Prefixes(run, m, j);
  }

  /** Every entry in memory is the time of an answered message with that id. */
  lemma {:induction false} EntriesJustified(run: seq<Message>, account: string, id: string)
    ensures id in After(run, account) ==> Justified(run, account, id, After(run, account)[id])
  {
    if run != [] && id in After(run, account) {
      var init, m := run[..|run| - 1], run[|run| - 1];
      assert run == init + [m];
      EntriesJustified(init, account, id);
      var t := After(run, account)[id];
      if id in After(init, account) && After(init, account)[id] == t {
        var j: nat :| AnsweredAt(init, account, j, id, t);
        AnsweredStays(init, m, account, j, id, t);
      } else {
        assert AnsweredAt(run, account, |init|, id, t);
      }
    }
  }

  /** An answered message stays in memory, or gives way to a later one with its id, for the length of
      the window. */
  lemma {:induction false} AnsweredIsKept(run: seq<Message>, account: string, j: nat, now: real)
    requires j < |run| && InOrder(run) && Handled(run, j, account) && run[j].id != ""
    requires run[|run| - 1].now <= now && now - run[j].now <= WINDOW_SECONDS
    ensures run[j].id in After(run, account) && run[j].now <= After(run, account)[run[j].id]
  {
    var init, m := run[..|run| - 1], run[|run| - 1];
    assert run == init + [m];
    if j < |init| {
      AnsweredStays(init, m, account, j, run[j].id, run[j].now);
      AnsweredIsKept(init, account, j, now);
    }
  }

  /** The window, over every run: a relevant message is answered exactly when no message with its id was
      answered in the five minutes before it; a message without an id is always answered. */
  lemma AnsweredOncePerWindow(run: seq<Message>, account: string, k: nat)
    requires InOrder(run) && k < |run|
    ensures Handled(run, k, account) <==>
            run[k].kind == 1 && run[k].user != "" && run[k].user != account
            && (run[k].id == "" || !RecentlyAnswered(run, account, k))
  {
    var id, now, seen := run[k].id, run[k].now, After(run[..k], account);
    if Relevant(run[k], account) && id != "" {
      if id in seen && now - seen[id] <= WINDOW_SECONDS {
        RememberedMeansAnswered(run, account, k);
      }
      if RecentlyAnswered(run, account, k) {
        AnsweredMeansRemembered(run, account, k);
      }
    }
  }

  ghost predicate RecentlyAnswered(run: seq<Message>, account: string, k: nat)
    requires k < |run|
  {
    exists j: nat :: j < k && Handled(run, j, account) && run[j].id == run[k].id && run[k].now - run[j].now <= 300.0
  }

  lemma RememberedMeansAnswered(run: seq<Message>, account: string, k: nat)
    requires k < |run| && run[k].id in After(run[..k], account)
    requires run[k].now - After(run[..k], account)[run[k].id] <= WINDOW_SECONDS
    ensures RecentlyAnswered(run, account, k)
  {
    var id, seen := run[k].id, After(run[..k], account);
    EntriesJustified(run[..k], account, id);
    var j: nat :| AnsweredAt(run[..k], account, j, id, seen[id]);
    assert run[..k][..j] == run[..j];
  }

  lemma AnsweredMeansRemembered(run: seq<Message>, account: string, k: nat)
    requires InOrder(run) && k < |run| && run[k].id != "" && RecentlyAnswered(run, account, k)
    ensures run[k].id in Recent(After(run[..k], account), run[k].now)
  {
    var j: nat :| j < k && Handled(run, j, account) && run[j].id == run[k].id && run[k].now - run[j].now <= WINDOW_SECONDS;
    assert run[..k][..j] == run[..j];
    AnsweredIsKept(run[..k], account, j, run[k].now);
  }
}
