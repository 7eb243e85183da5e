/** Where everything that merging adds comes from. */
module MarketplaceAdditions {
  import opened Wrappers
  import opened Marketplace

  /** The entry is made of a keyed plugin of a local market that answers to the name. */
  ghost predicate FromLocal(restore: string -> string, local: Market, name: string, p: Plugin) {
    restore(local.name) == name
    && exists q :: q in PluginsOf(local) && Key(q) != "" && p == Normalized(q, name)
  }

  ghost predicate FromLocals(restore: string -> string, locals: seq<Market>, name: string, p: Plugin) {
    exists j :: 0 <= j < |locals| && FromLocal(restore, locals[j], name, p)
  }

  /** The plugins behind the first `n` come from local markets of this name. */
  ghost predicate PluginsFrom(restore: string -> string, locals: seq<Market>, name: string, n: nat, plugins: seq<Plugin>) {
    forall k :: n <= k < |plugins| ==> FromLocals(restore, locals, name, plugins[k])
  }

  /** No market before position `i` answers to the name. */
  ghost predicate NameNewAt(restore: string -> string, markets: seq<Market>, i: nat, name: string) {
    forall k :: 0 <= k < i && k < |markets| ==> restore(markets[k].name) != name
  }

  /** A market begins as a local market: under its name, with its keyed plugins, in order and with any
      repeats, and what is behind them came later, under new keys. */
  ghost predicate BeginsAs(restore: string -> string, m: Market, local: Market) {
    var first := Keyed(Offers(PluginsOf(local), restore(local.name)));
    m.name == local.name && first <= PluginsOf(m) && FreshFrom(|first|, PluginsOf(m))
  }

  /** A market that was added: it begins as the first local market of its name, and no market in front
      of it has that name. */
  ghost predicate Added(restore: string -> string, r: seq<Market>, i: nat, locals: seq<Market>, j: nat) {
    && i < |r| && j < |locals|
    && BeginsAs(restore, r[i], locals[j])
    && restore(r[i].name) != ""
    && NameNewAt(restore, r, i, restore(r[i].name))
    && NameNewAt(restore, locals, j, restore(r[i].name))
  }

  ghost predicate AddedAt(restore: string -> string, r: seq<Market>, i: nat, locals: seq<Market>) {
    exists j: nat :: Added(restore, r, i, locals, j)
  }

  ghost predicate AllAdded(restore: string -> string, markets: seq<Market>, r: seq<Market>, locals: seq<Market>) {
    forall i :: |markets| <= i < |r| ==> AddedAt(restore, r, i, locals)
  }

  /** How many plugins a market had before merging. */
  function Before(markets: seq<Market>, i: nat): nat {
    if i < |markets| then |PluginsOf(markets[i])| else 0
  }

  ghost predicate AllFrom(restore: string -> string, markets: seq<Market>, r: seq<Market>, locals: seq<Market>) {
    forall i :: 0 <= i < |r| ==> PluginsFrom(restore, locals, restore(r[i].name), Before(markets, i), PluginsOf(r[i]))
  }

  // ---- One local market ----

  lemma {:induction false} KeyedFrom(plugins: seq<Plugin>, name: string, p: Plugin)
    requires p in Keyed(Offers(plugins, name))
    ensures exists q :: q in plugins && Key(q) != "" && p == Normalized(q, name)
  {
    if !(Key(plugins[0]) != "" && p == Normalized(plugins[0], name)) {
      KeyedFrom(plugins[1..], name, p);
      var q :| q in plugins[1..] && Key(q) != "" && p == Normalized(q, name);
      assert q in plugins;
    }
  }

  lemma {:induction false} TakenFrom(existing: set<string>, plugins: seq<Plugin>, name: string, p: Plugin)
    requires p in Taken(existing, Offers(plugins, name))
    ensures exists q :: q in plugins && Key(q) != "" && p == Normalized(q, name)
    decreases |plugins|
  {
    var key := Key(plugins[0]);
    if key != "" && key !in existing && p == Normalized(plugins[0], name) {
      assert plugins[0] in plugins;
    } else {
      var next := if key == "" || key in existing then existing else existing + {key};
      TakenFrom(next, plugins[1..], name, p);
      var q :| q in plugins[1..] && Key(q) != "" && p == Normalized(q, name);
      assert q in plugins;
    }
  }

  lemma MergedFrom(restore: string -> string, target: Market, source: Market, k: nat)
    requires restore(target.name) == restore(source.name)
    requires |PluginsOf(target)| <= k < |PluginsOf(MergePlugins(restore, target, source))|
    ensures FromLocal(restore, source, restore(target.name), PluginsOf(MergePlugins(restore, target, source))[k])
  {
    var name := restore(target.name);
    var taken := Taken(Keys(PluginsOf(target)), Offers(source.plugins.value, name));
    var p := PluginsOf(MergePlugins(restore, target, source))[k];
    assert p == taken[k - |PluginsOf(target)|];
    TakenFrom(Keys(PluginsOf(target)), source.plugins.value, name, p);
  }

  lemma MoreLocals(restore: string -> string, locals: seq<Market>, local: Market, name: string, p: Plugin)
    ensures FromLocals(restore, locals, name, p) ==> FromLocals(restore, locals + [local], name, p)
    ensures FromLocal(restore, local, name, p) ==> FromLocals(restore, locals + [local], name, p)
  {
    var all := locals + [local];
    if j :| 0 <= j < |locals| && FromLocal(restore, locals[j], name, p) { assert all[j] == locals[j]; }
    if FromLocal(restore, local, name, p) { assert all[|locals|] == local; }
  }

  lemma MorePlugins(restore: string -> string, locals: seq<Market>, local: Market, name: string, n: nat, a: seq<Plugin>, b: seq<Plugin>)
    requires PluginsFrom(restore, locals, name, n, a) && a <= b
    requires forall k :: |a| <= k < |b| ==> FromLocal(restore, local, name, b[k])
    ensures PluginsFrom(restore, locals + [local], name, n, b)
  {
    forall k | n <= k < |b| ensures FromLocals(restore, locals + [local], name, b[k]) {
      MoreLocals(restore, locals, local, name, b[k]);
      if k < |a| { assert b[k] == a[k]; }
    }
  }

  lemma FreshLonger(n: nat, a: seq<Plugin>, b: seq<Plugin>)
    requires FreshFrom(n, a) && a <= b && FreshFrom(|a|, b)
    ensures FreshFrom(n, b)
  {
    forall j | n <= j < |a| ensures Key(b[j]) != "" { assert b[j] == a[j]; }
    forall j, k | n <= j < |a| && 0 <= k < j ensures Key(b[k]) != Key(b[j]) { assert b[j] == a[j] && b[k] == a[k]; }
  }

  lemma BeginsLonger(restore: string -> string, a: Market, b: Market, local: Market)
    requires BeginsAs(restore, a, local) && MarketKept(a, b)
    ensures BeginsAs(restore, b, local)
  {
    var first := Keyed(Offers(PluginsOf(local), restore(local.name)));
    FreshLonger(|first|, PluginsOf(a), PluginsOf(b));
  }

  /** An added market stays one when another local market is merged. */
  lemma AddedStays(restore: string -> string, a: seq<Market>, b: seq<Market>, i: nat, locals: seq<Market>, local: Market, j: nat)
    requires Added(restore, a, i, locals, j) && Kept(a, b)
    ensures Added(restore, b, i, locals + [local], j)
  {
    BeginsLonger(restore, a[i], b[i], locals[j]);
    assert (locals + [local])[j] == locals[j];
    forall k | 0 <= k < i ensures restore(b[k].name) != restore(b[i].name) {
      assert MarketKept(a[k], b[k]);
    }
  }

  lemma AllAddedStay(restore: string -> string, markets: seq<Market>, a: seq<Market>, b: seq<Market>, locals: seq<Market>, local: Market)
    requires AllAdded(restore, markets, a, locals) && Kept(a, b) && |b| == |a|
    ensures AllAdded(restore, markets, b, locals + [local])
  {
    forall i | |markets| <= i < |b| ensures AddedAt(restore, b, i, locals + [local]) {
      assert AddedAt(restore, a, i, locals);
      var j: nat :| Added(restore, a, i, locals, j);
      AddedStays(restore, a, b, i, locals, local, j);
    }
  }

  lemma NewBegins(restore: string -> string, local: Market)
    ensures BeginsAs(restore, Market(local.name, Some(Keyed(Offers(PluginsOf(local), restore(local.name))))), local)
  {
  }

  /** The step that adds a market. */
  lemma AddedLast(restore: string -> string, markets: seq<Market>, a: seq<Market>, locals: seq<Market>, local: Market, m: Market)
    requires AllAdded(restore, markets, a, locals) && |markets| <= |a|
    requires restore(local.name) != "" && NameNewAt(restore, a, |a|, restore(local.name))
    requires NameNewAt(restore, locals, |locals|, restore(local.name))
    requires m == Market(local.name, Some(Keyed(Offers(PluginsOf(local), restore(local.name)))))
    ensures AllAdded(restore, markets, a + [m], locals + [local])
  {
    var b, all := a + [m], locals + [local];
    forall i | 0 <= i < |a| ensures MarketKept(a[i], b[i]) { SelfKept(a[i]); }
    forall i | |markets| <= i < |b| ensures AddedAt(restore, b, i, all) {
      if i < |a| {
        assert AddedAt(restore, a, i, locals);
        var j: nat :| Added(restore, a, i, locals, j);
        AddedStays(restore, a, b, i, locals, local, j);
      } else {
        AddedNew(restore, a, locals, local, m);
      }
    }
  }

  lemma AddedNew(restore: string -> string, a: seq<Market>, locals: seq<Market>, local: Market, m: Market)
    requires restore(local.name) != "" && NameNewAt(restore, a, |a|, restore(local.name))
    requires NameNewAt(restore, locals, |locals|, restore(local.name))
    requires m == Market(local.name, Some(Keyed(Offers(PluginsOf(local), restore(local.name)))))
    ensures Added(restore, a + [m], |a|, locals + [local], |locals|)
  {
    NewBegins(restore, local);
  }

  lemma NameStaysNew(restore: string -> string, markets: seq<Market>, locals: seq<Market>, name: string)
    requires name != "" && LastOf(restore, MergeLocal(restore, markets, locals), name) == None
    ensures NameNewAt(restore, locals, |locals|, name)
  {
    MergeSettles(restore, markets, locals);
    forall k | 0 <= k < |locals| ensures restore(locals[k].name) != name {
      assert Settled(restore, MergeLocal(restore, markets, locals), locals[k]);
    }
  }

  lemma AllFromSame(restore: string -> string, markets: seq<Market>, a: seq<Market>, locals: seq<Market>, local: Market)
    requires AllFrom(restore, markets, a, locals)
    ensures AllFrom(restore, markets, a, locals + [local])
  {
    forall i | 0 <= i < |a|
      ensures PluginsFrom(restore, locals + [local], restore(a[i].name), Before(markets, i), PluginsOf(a[i]))
    {
      MorePlugins(restore, locals, local, restore(a[i].name), Before(markets, i), PluginsOf(a[i]), PluginsOf(a[i]));
    }
  }

  lemma AllFromMerged(restore: string -> string, markets: seq<Market>, a: seq<Market>, locals: seq<Market>, local: Market, at: nat)
    requires AllFrom(restore, markets, a, locals) && at < |a| && restore(a[at].name) == restore(local.name)
    ensures AllFrom(restore, markets, a[at := MergePlugins(restore, a[at], local)], locals + [local])
  {
    var m := MergePlugins(restore, a[at], local);
    AllFromSame(restore, markets, a, locals, local);
    MergePluginsKeeps(restore, a[at], local);
    forall k | |PluginsOf(a[at])| <= k < |PluginsOf(m)| ensures FromLocal(restore, local, restore(a[at].name), PluginsOf(m)[k]) {
      MergedFrom(restore, a[at], local, k);
    }
    MorePlugins(restore, locals, local, restore(a[at].name), Before(markets, at), PluginsOf(a[at]), PluginsOf(m));
  }

  lemma AllFromAdded(restore: string -> string, markets: seq<Market>, a: seq<Market>, locals: seq<Market>, local: Market, m: Market)
    requires AllFrom(restore, markets, a, locals) && |markets| <= |a|
    requires m == Market(local.name, Some(Keyed(Offers(PluginsOf(local), restore(local.name)))))
    ensures AllFrom(restore, markets, a + [m], locals + [local])
  {
    AllFromSame(restore, markets, a, locals, local);
    forall k | 0 <= k < |PluginsOf(m)| ensures FromLocals(restore, locals + [local], restore(m.name), PluginsOf(m)[k]) {
      KeyedFrom(PluginsOf(local), restore(local.name), PluginsOf(m)[k]);
      MoreLocals(restore, locals, local, restore(m.name), PluginsOf(m)[k]);
    }
  }

  // ---- All of them ----

  lemma StepAdds(restore: string -> string, markets: seq<Market>, locals: seq<Market>, local: Market)
    requires AllAdded(restore, markets, MergeLocal(restore, markets, locals), locals)
    requires AllFrom(restore, markets, MergeLocal(restore, markets, locals), locals)
    ensures var r := MergeOne(restore, MergeLocal(restore, markets, locals), local);
            AllAdded(restore, markets, r, locals + [local]) && AllFrom(restore, markets, r, locals + [local])
  {
    var a, name := MergeLocal(restore, markets, locals), restore(local.name);
    MergeKeeps(restore, markets, locals);
    MergeOneKeeps(restore, a, local);
    if name == "" {
      AllAddedStay(restore, markets, a, a, locals, local);
      AllFromSame(restore, markets, a, locals, local);
    } else if LastOf(restore, a, name).Some? {
      AllAddedStay(restore, markets, a, MergeOne(restore, a, local), locals, local);
      AllFromMerged(restore, markets, a, locals, local, LastOf(restore, a, name).value);
    } else {
      var m := Market(local.name, Some(Keyed(Offers(PluginsOf(local), name))));
      NameStaysNew(restore, markets, locals, name);
      AddedLast(restore, markets, a, locals, local, m);
      AllFromAdded(restore, markets, a, locals, local, m);
    }
  }

  lemma {:induction false} AllAdditions(restore: string -> string, markets: seq<Market>, locals: seq<Market>)
    ensures AllAdded(restore, markets, MergeLocal(restore, markets, locals), locals)
    ensures AllFrom(restore, markets, MergeLocal(restore, markets, locals), locals)
  {
    if locals != [] {
      var init, local := locals[..|locals| - 1], locals[|locals| - 1];
      assert locals == init + [local];
      AllAdditions(restore, markets, init);
      StepAdds(restore, markets, init, local);
    }
  }

  /** Everything merging adds comes from the local markets. An added market begins as the first local market
      of its name, which no market before it has; a plugin added to a market, old or new, is a keyed
      plugin of a local market of that market's name, completed. */
  lemma AdditionsComeFromLocals(markets: seq<Market>, locals: seq<Market>)
    ensures var r := MergeLocal(RestoreName, markets, locals);
            && (forall i :: |markets| <= i < |r| ==> AddedAt(RestoreName, r, i, locals))
            && (forall i :: 0 <= i < |r| ==>
                  PluginsFrom(RestoreName, locals, RestoreName(r[i].name), Before(markets, i), PluginsOf(r[i])))
  {
    AllAdditions(RestoreName, markets, locals);
  }

  // ---- Names ----

  /** What `name` is to be restored to, if it is one of the five names the application gives. */
  predicate IsShipped(name: string, restored: string) {
    || (name == "codex-plus-openai-bundled" && restored == "openai-bundled")
    || (name == "codex-plus-openai-curated" && restored == "openai-curated")
    || (name == "codex-plus-openai-primary-runtime" && restored == "openai-primary-runtime")
    || (name == "codex-plus-openai-api-curated" && restored == "openai-api-curated")
    || (name == "codex-plus-openai-curated-remote" && restored == "openai-curated-remote")
  }

  /** The five names are restored, and no other name is changed. */
  lemma RestoredNames(name: string)
    ensures IsShipped(name, RestoreName(name)) || (RestoreName(name) == name && forall r :: !IsShipped(name, r))
  {
  }

  /** The entry added for a plugin has the plugin's own properties where it has them: the key stands in for a
      missing name and display name, and the market for the rest. */
  lemma MissingFilledIn(p: Plugin, market: string)
    requires Key(p) != ""
    ensures var r := Normalized(p, market);
            && r.hasKeywords && r.pluginName == p.pluginName && Key(r) == Key(p)
            && (if p.name == "" then r.name == Key(p) else r.name == p.name)
            && (if p.displayName == "" then r.displayName == Key(p) else r.displayName == p.displayName)
            && (if p.id == "" then r.id == Key(p) + "@" + market else r.id == p.id)
            && (if p.marketplaceName == "" then r.marketplaceName == market else r.marketplaceName == p.marketplaceName)
            && (if p.marketplacePath == "" then r.marketplacePath == market else r.marketplacePath == p.marketplacePath)
  {
    NormalizedKey(p, market);
  }
}
