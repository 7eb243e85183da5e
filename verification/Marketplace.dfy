/** Merging the plugin marketplaces shipped with the application into those a request returned. */
module Marketplace {
  import opened Wrappers
  import opened Text

  /** A plugin entry; "" is a missing property. */
  datatype Plugin = Plugin(name: string, id: string, pluginName: string, marketplaceName: string,
                           marketplacePath: string, displayName: string, hasKeywords: bool)

  datatype Market = Market(name: string, plugins: Option<seq<Plugin>>)

  /** `pluginMarketplacePluginKey`. */
  function Key(p: Plugin): string {
    Trim(JavaScript, FirstOf(p.name, FirstOf(p.id, p.pluginName)))
  }

  function Keys(plugins: seq<Plugin>): set<string> {
    set p | p in plugins :: Key(p)
  }

  function RestoreName(name: string): string {
    match name
    case "codex-plus-openai-bundled" => "openai-bundled"
    case "codex-plus-openai-curated" => "openai-curated"
    case "codex-plus-openai-primary-runtime" => "openai-primary-runtime"
    case "codex-plus-openai-api-curated" => "openai-api-curated"
    case "codex-plus-openai-curated-remote" => "openai-curated-remote"
    case _ => name
  }

  /** A keyed local plugin with its missing properties filled in. */
  function Normalized(p: Plugin, market: string): Plugin {
    Plugin(FirstOf(p.name, Key(p)), FirstOf(p.id, Key(p) + "@" + market), p.pluginName,
           FirstOf(p.marketplaceName, market), FirstOf(p.marketplacePath, market), FirstOf(p.displayName, Key(p)), true)
  }

  /** A plugin on offer: its key, and the entry that would be added for it. */
  datatype Offer = Offer(key: string, plugin: Plugin)

  function Offers(plugins: seq<Plugin>, market: string): (r: seq<Offer>)
    ensures |r| == |plugins|
  {
    if plugins == [] then []
    else [Offer(Key(plugins[0]), Normalized(plugins[0], market))] + Offers(plugins[1..], market)
  }

  function Keyed(offers: seq<Offer>): seq<Plugin> {
    if offers == [] then []
    else (if offers[0].key != "" then [offers[0].plugin] else []) + Keyed(offers[1..])
  }

  /** The offers taken up, in order: keyed, and under no key that is there already. */
  function Taken(existing: set<string>, offers: seq<Offer>): seq<Plugin>
    decreases |offers|
  {
    if offers == [] then []
    else if offers[0].key == "" || offers[0].key in existing then Taken(existing, offers[1..])
    else [offers[0].plugin] + Taken(existing + {offers[0].key}, offers[1..])
  }

  function PluginsOf(m: Market): seq<Plugin> {
    m.plugins.GetOr([])
  }

  /** `restore` is the renaming of market names; the code's is `RestoreName`. */
  function MergePlugins(restore: string -> string, target: Market, source: Market): Market {
    if source.plugins.None? then target
    else
      var offers := Offers(source.plugins.value, restore(FirstOf(target.name, source.name)));
      target.(plugins := Some(PluginsOf(target) + Taken(Keys(PluginsOf(target)), offers)))
  }

  /** The last market of a name, which is the one the name map ends up with. */
  function LastOf(restore: string -> string, markets: seq<Market>, name: string): (last: Option<nat>)
    ensures last.Some? ==> last.value < |markets| && restore(markets[last.value].name) == name
    ensures last.None? ==> forall i :: 0 <= i < |markets| ==> restore(markets[i].name) != name
  {
    if markets == [] then None
    else if restore(markets[|markets| - 1].name) == name then Some(|markets| - 1)
    else LastOf(restore, markets[..|markets| - 1], name)
  }

  function MergeOne(restore: string -> string, markets: seq<Market>, local: Market): (r: seq<Market>) {
    var name := restore(local.name);
    if name == "" then markets
    else
      match LastOf(restore, markets, name)
      case Some(i) => markets[i := MergePlugins(restore, markets[i], local)]
      case None => markets + [Market(local.name, Some(Keyed(Offers(PluginsOf(local), name))))]
  }

  function MergeLocal(restore: string -> string, markets: seq<Market>, locals: seq<Market>): seq<Market> {
    if locals == [] then markets
    else MergeOne(restore, MergeLocal(restore, markets, locals[..|locals| - 1]), locals[|locals| - 1])
  }

  // ---- In place ----

  method MergePluginsInto(restore: string -> string, target: Market, source: Market) returns (merged: Market)
    ensures merged == MergePlugins(restore, target, source)
  {
    if source.plugins.None? { return target; }
    var plugins := PluginsOf(target);
    var existing := Keys(plugins);
    var offers := Offers(source.plugins.value, restore(FirstOf(target.name, source.name)));
    ghost var all := plugins + Taken(existing, offers);
    for i := 0 to |offers|
      invariant plugins + Taken(existing, offers[i..]) == all
    {
      assert offers[i..][0] == offers[i] && offers[i..][1..] == offers[i + 1..];
      if offers[i].key == "" || offers[i].key in existing { continue; }
      Assoc(plugins, [offers[i].plugin], Taken(existing + {offers[i].key}, offers[i + 1..]));
      plugins := plugins + [offers[i].plugin];
      existing := existing + {offers[i].key};
    }
    assert offers[|offers|..] == [] && plugins + [] == plugins;
    merged := target.(plugins := Some(plugins));
  }

  /** The name map of the source: where the last market of each name stands. */
  ghost predicate Indexes(restore: string -> string, byName: map<string, nat>, markets: seq<Market>) {
    forall name :: name != "" ==>
      (if name in byName then LastOf(restore, markets, name) == Some(byName[name])
       else LastOf(restore, markets, name) == None)
  }

  lemma LastOfAppend(restore: string -> string, markets: seq<Market>, m: Market, name: string)
    ensures LastOf(restore, markets + [m], name)
            == if restore(m.name) == name then Some(|markets|) else LastOf(restore, markets, name)
  {
    assert (markets + [m])[..|markets + [m]| - 1] == markets;
  }

  lemma {:induction false} LastOfSameNames(restore: string -> string, a: seq<Market>, b: seq<Market>, name: string)
    requires |a| == |b| && forall i :: 0 <= i < |a| ==> a[i].name == b[i].name
    ensures LastOf(restore, a, name) == LastOf(restore, b, name)
  {
    if a != [] {
      LastOfSameNames(restore, a[..|a| - 1], b[..|b| - 1], name);
    }
  }

  lemma IndexUpdate(restore: string -> string, byName: map<string, nat>, markets: seq<Market>, i: nat, m: Market)
    requires Indexes(restore, byName, markets) && i < |markets| && m.name == markets[i].name
    ensures Indexes(restore, byName, markets[i := m])
  {
    forall name ensures LastOf(restore, markets[i := m], name) == LastOf(restore, markets, name) {
      LastOfSameNames(restore, markets[i := m], markets, name);
    }
  }

  method MergeLocalInto(restore: string -> string, markets: seq<Market>, locals: seq<Market>) returns (result: seq<Market>)
    ensures result == MergeLocal(restore, markets, locals)
  {
    var byName: map<string, nat> := map[];
    for i := 0 to |markets|
      invariant Indexes(restore, byName, markets[..i])
    {
      assert markets[..i + 1] == markets[..i] + [markets[i]];
      if restore(markets[i].name) != "" { byName := byName[restore(markets[i].name) := i]; }
    }
    assert markets[..|markets|] == markets;
    result := markets;
    for i := 0 to |locals|
      invariant result == MergeLocal(restore, markets, locals[..i]) && Indexes(restore, byName, result)
    {
      assert locals[..i + 1][..i] == locals[..i];
      var name := restore(locals[i].name);
      if name == "" { continue; }
      if name in byName {
        var merged := MergePluginsInto(restore, result[byName[name]], locals[i]);
        IndexUpdate(restore, byName, result, byName[name], merged);
        result := result[byName[name] := merged];
      } else {
        var cloned := Market(locals[i].name, Some(Keyed(Offers(PluginsOf(locals[i]), name))));
        byName := byName[name := |result|];
        result := result + [cloned];
      }
    }
    assert locals[..|locals|] == locals;
  }

  /** `mergeLocalPluginMarketplaces`. */
  method MergeLocalPluginMarketplaces(markets: seq<Market>, locals: seq<Market>) returns (result: seq<Market>)
    ensures result == MergeLocal(RestoreName, markets, locals)
  {
    result := MergeLocalInto(RestoreName, markets, locals);
  }

  // ---- What merging keeps ----

  /** Every plugin behind the first `n` has a key that none before it has. */
  ghost predicate FreshFrom(n: nat, plugins: seq<Plugin>) {
    && (forall j :: n <= j < |plugins| ==> Key(plugins[j]) != "")
    && (forall j, k :: n <= j < |plugins| && 0 <= k < j ==> Key(plugins[k]) != Key(plugins[j]))
  }

  ghost predicate MarketKept(a: Market, b: Market) {
    && b.name == a.name && PluginsOf(a) <= PluginsOf(b) && FreshFrom(|PluginsOf(a)|, PluginsOf(b))
    && (a.plugins.Some? ==> b.plugins.Some?)
  }

  /** Markets stay in place, and their plugins too; what is new comes behind, under new keys. */
  ghost predicate Kept(a: seq<Market>, b: seq<Market>) {
    |a| <= |b| && forall i :: 0 <= i < |a| ==> MarketKept(a[i], b[i])
  }

  ghost predicate Keyful(offers: seq<Offer>) {
    forall i :: 0 <= i < |offers| && offers[i].key != "" ==> Key(offers[i].plugin) == offers[i].key
  }

  lemma NormalizedKey(p: Plugin, market: string)
    requires Key(p) != ""
    ensures Key(Normalized(p, market)) == Key(p)
  {
    TrimTwice(JavaScript, FirstOf(p.name, FirstOf(p.id, p.pluginName)));
  }

  lemma {:induction false} OffersAt(plugins: seq<Plugin>, market: string, i: nat)
    requires i < |plugins|
    ensures Offers(plugins, market)[i] == Offer(Key(plugins[i]), Normalized(plugins[i], market))
  {
    if i > 0 { OffersAt(plugins[1..], market, i - 1); }
  }

  lemma OffersKeyful(plugins: seq<Plugin>, market: string)
    ensures Keyful(Offers(plugins, market))
    ensures forall i :: 0 <= i < |plugins| ==> Offers(plugins, market)[i].key == Key(plugins[i])
  {
    forall i | 0 <= i < |plugins|
      ensures var o := Offers(plugins, market)[i]; o.key == Key(plugins[i]) && (o.key != "" ==> Key(o.plugin) == o.key)
    {
      OffersAt(plugins, market, i);
      if Key(plugins[i]) != "" { NormalizedKey(plugins[i], market); }
    }
  }

  lemma KeysAppend(plugins: seq<Plugin>, p: Plugin)
    ensures Keys(plugins + [p]) == Keys(plugins) + {Key(p)}
  {
  }

  lemma FreshAppend(n: nat, plugins: seq<Plugin>, p: Plugin)
    requires FreshFrom(n, plugins) && Key(p) != "" && Key(p) !in Keys(plugins)
    ensures FreshFrom(n, plugins + [p])
  {
    var r := plugins + [p];
    forall j, k | n <= j < |r| && 0 <= k < j ensures Key(r[k]) != Key(r[j]) {
      assert r[k] == plugins[k] && plugins[k] in plugins;
    }
  }

  /** Taking offers adds plugins under new keys only, and covers every key on offer. */
  lemma {:induction false} TakenIsFresh(n: nat, plugins: seq<Plugin>, offers: seq<Offer>)
    requires Keyful(offers) && FreshFrom(n, plugins)
    ensures var r := plugins + Taken(Keys(plugins), offers);
            && FreshFrom(n, r) && Keys(plugins) <= Keys(r)
            && forall i :: 0 <= i < |offers| && offers[i].key != "" ==> offers[i].key in Keys(r)
    decreases |offers|
  {
    if offers == [] {
      assert plugins + [] == plugins;
    } else if offers[0].key == "" || offers[0].key in Keys(plugins) {
      TakenIsFresh(n, plugins, offers[1..]);
    } else {
      var p := offers[0].plugin;
      KeysAppend(plugins, p);
      FreshAppend(n, plugins, p);
      TakenIsFresh(n, plugins + [p], offers[1..]);
      Assoc(plugins, [p], Taken(Keys(plugins + [p]), offers[1..]));
    }
  }

  ghost predicate Covers(m: Market, local: Market) {
    local.plugins.Some? ==>
      m.plugins.Some? && forall p :: p in local.plugins.value && Key(p) != "" ==> Key(p) in Keys(m.plugins.value)
  }

  lemma MergePluginsKeeps(restore: string -> string, target: Market, source: Market)
    ensures MarketKept(target, MergePlugins(restore, target, source))
    ensures Covers(MergePlugins(restore, target, source), source)
  {
    if source.plugins.Some? {
      var market := restore(FirstOf(target.name, source.name));
      var plugins, source' := PluginsOf(target), source.plugins.value;
      OffersKeyful(source', market);
      TakenIsFresh(|plugins|, plugins, Offers(source', market));
      forall p | p in source' && Key(p) != ""
        ensures Key(p) in Keys(plugins + Taken(Keys(plugins), Offers(source', market)))
      {
        var i :| 0 <= i < |source'| && source'[i] == p;
        assert Offers(source', market)[i].key == Key(p);
      }
    }
  }

  lemma SelfKept(m: Market)
    ensures MarketKept(m, m)
  {
  }

  lemma MergeOneKeeps(restore: string -> string, markets: seq<Market>, local: Market)
    ensures Kept(markets, MergeOne(restore, markets, local))
  {
    var r := MergeOne(restore, markets, local);
    forall i | 0 <= i < |markets| ensures MarketKept(markets[i], r[i]) {
      assert r[i] == markets[i] || r[i] == MergePlugins(restore, markets[i], local);
      SelfKept(markets[i]);
      MergePluginsKeeps(restore, markets[i], local);
    }
  }

  lemma MarketKeptTransitive(a: Market, b: Market, c: Market)
    requires MarketKept(a, b) && MarketKept(b, c)
    ensures MarketKept(a, c)
  {
    var x, y, z := PluginsOf(a), PluginsOf(b), PluginsOf(c);
    forall j | |x| <= j < |y| ensures Key(z[j]) != "" {
      assert z[j] == y[j];
    }
    forall j, k | |x| <= j < |y| && 0 <= k < j ensures Key(z[k]) != Key(z[j]) {
      assert z[j] == y[j] && z[k] == y[k];
    }
  }

  lemma {:induction false} MergeKeeps(restore: string -> string, markets: seq<Market>, locals: seq<Market>)
    ensures Kept(markets, MergeLocal(restore, markets, locals))
  {
    if locals == [] {
      forall i | 0 <= i < |markets| ensures MarketKept(markets[i], markets[i]) { SelfKept(markets[i]); }
    } else {
      var before := MergeLocal(restore, markets, locals[..|locals| - 1]);
      MergeKeeps(restore, markets, locals[..|locals| - 1]);
      MergeOneKeeps(restore, before, locals[|locals| - 1]);
      var r := MergeLocal(restore, markets, locals);
      forall i | 0 <= i < |markets| ensures MarketKept(markets[i], r[i]) {
        MarketKeptTransitive(markets[i], before[i], r[i]);
      }
    }
  }

  // ---- What merging reaches ----

  /** The market that answers to a local market's name has all its keyed plugins. */
  ghost predicate Settled(restore: string -> string, markets: seq<Market>, local: Market) {
    var name := restore(local.name);
    name == "" || (LastOf(restore, markets, name).Some? && Covers(markets[LastOf(restore, markets, name).value], local))
  }

  lemma KeyedCovers(plugins: seq<Plugin>, market: string, p: Plugin)
    requires p in plugins && Key(p) != ""
    ensures Key(p) in Keys(Keyed(Offers(plugins, market)))
  {
    if p == plugins[0] {
      NormalizedKey(p, market);
      assert Normalized(p, market) in Keyed(Offers(plugins, market));
    } else {
      KeyedCovers(plugins[1..], market, p);
      var q :| q in Keyed(Offers(plugins[1..], market)) && Key(q) == Key(p);
      assert q in Keyed(Offers(plugins, market));
    }
  }

  lemma MergeOneSettles(restore: string -> string, markets: seq<Market>, local: Market)
    ensures Settled(restore, MergeOne(restore, markets, local), local)
  {
    var name := restore(local.name);
    if name != "" {
      match LastOf(restore, markets, name) {
        case Some(i) =>
          MergePluginsKeeps(restore, markets[i], local);
          LastOfSameNames(restore, MergeOne(restore, markets, local), markets, name);
        case None =>
          LastOfAppend(restore, markets, Market(local.name, Some(Keyed(Offers(PluginsOf(local), name)))), name);
          forall p | p in PluginsOf(local) && Key(p) != "" ensures Key(p) in Keys(Keyed(Offers(PluginsOf(local), name))) {
            KeyedCovers(PluginsOf(local), name, p);
          }
      }
    }
  }

  lemma MergeOneKeepsSettled(restore: string -> string, markets: seq<Market>, local: Market, settled: Market)
    requires Settled(restore, markets, settled)
    ensures Settled(restore, MergeOne(restore, markets, local), settled)
  {
    var r, name, own := MergeOne(restore, markets, local), restore(settled.name), restore(local.name);
    if name != "" && own != "" {
      var i := LastOf(restore, markets, name).value;
      if LastOf(restore, markets, own).Some? {
        LastOfSameNames(restore, r, markets, name);
      } else {
        LastOfAppend(restore, markets, r[|markets|], name);
      }
      MergeOneKeeps(restore, markets, local);
    }
  }

  lemma {:induction false} MergeSettles(restore: string -> string, markets: seq<Market>, locals: seq<Market>)
    ensures forall i :: 0 <= i < |locals| ==> Settled(restore, MergeLocal(restore, markets, locals), locals[i])
  {
    if locals != [] {
      var n := |locals| - 1;
      MergeSettles(restore, markets, locals[..n]);
      MergeOneSettles(restore, MergeLocal(restore, markets, locals[..n]), locals[n]);
      forall i | 0 <= i < n ensures Settled(restore, MergeLocal(restore, markets, locals), locals[i]) {
        assert locals[..n][i] == locals[i];
        MergeOneKeepsSettled(restore, MergeLocal(restore, markets, locals[..n]), locals[n], locals[i]);
      }
    }
  }

  lemma {:induction false} NothingTaken(existing: set<string>, offers: seq<Offer>)
    requires forall i :: 0 <= i < |offers| && offers[i].key != "" ==> offers[i].key in existing
    ensures Taken(existing, offers) == []
  {
    if offers != [] {
      NothingTaken(existing, offers[1..]);
    }
  }

  lemma SettledMergesNothing(restore: string -> string, markets: seq<Market>, local: Market)
    requires Settled(restore, markets, local)
    ensures MergeOne(restore, markets, local) == markets
  {
    var name := restore(local.name);
    if name != "" && local.plugins.Some? {
      var i := LastOf(restore, markets, name).value;
      var market := restore(FirstOf(markets[i].name, local.name));
      OffersKeyful(local.plugins.value, market);
      NothingTaken(Keys(PluginsOf(markets[i])), Offers(local.plugins.value, market));
      assert PluginsOf(markets[i]) + [] == PluginsOf(markets[i]);
    }
  }

  lemma {:induction false} SettledMergeNothing(restore: string -> string, markets: seq<Market>, locals: seq<Market>)
    requires forall i :: 0 <= i < |locals| ==> Settled(restore, markets, locals[i])
    ensures MergeLocal(restore, markets, locals) == markets
  {
    if locals != [] {
      SettledMergeNothing(restore, markets, locals[..|locals| - 1]);
      SettledMergesNothing(restore, markets, locals[|locals| - 1]);
    }
  }

  // ---- The laws ----

  /** Merging keeps every market and plugin in place, adds under new keys only, covers every keyed
      local plugin under its market's name, and merging again adds nothing. */
  lemma MergeLaws(markets: seq<Market>, locals: seq<Market>)
    ensures var r := MergeLocal(RestoreName, markets, locals);
            && Kept(markets, r)
            && (forall i :: 0 <= i < |locals| ==> Settled(RestoreName, r, locals[i]))
            && MergeLocal(RestoreName, r, locals) == r
  {
    MergeKeeps(RestoreName, markets, locals);
    MergeSettles(RestoreName, markets, locals);
    SettledMergeNothing(RestoreName, MergeLocal(RestoreName, markets, locals), locals);
  }
}
