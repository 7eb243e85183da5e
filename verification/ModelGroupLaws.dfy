/** What grouping promises: a partition of the distinct ids into sorted groups in the table's order. */
module ModelGroupLaws {
  import opened Text
  import opened ModelFamilies
  import opened ModelGroups

  /** What the collation has to be for sorting to make sense; different ids may tie. */
  ghost predicate Collates(leq: Collation) {
    && (forall a, b :: leq(a, b) || leq(b, a))
    && (forall a, b, c :: leq(a, b) && leq(b, c) ==> leq(a, c))
  }

  ghost predicate NoRepeats(s: seq<string>) {
    forall i, j :: 0 <= i < j < |s| ==> s[i] != s[j]
  }

  ghost predicate Sorted(s: seq<string>, leq: Collation) {
    forall i, j :: 0 <= i < j < |s| ==> leq(s[i], s[j])
  }

  // ---- The distinct ids ----

  /** Some id of the list trims to this. */
  ghost predicate Listed(models: seq<string>, m: string) {
    exists i :: 0 <= i < |models| && Trim(JavaScript, models[i]) == m
  }

  lemma ListedSnoc(init: seq<string>, raw: string, m: string)
    ensures Listed(init + [raw], m) <==> Listed(init, m) || Trim(JavaScript, raw) == m
  {
    var models := init + [raw];
    assert models[|init|] == raw;
    if i :| 0 <= i < |init| && Trim(JavaScript, init[i]) == m {
      assert models[i] == init[i];
    }
  }

  lemma {:induction false} DistinctIds(models: seq<string>, m: string)
    ensures m in Distinct(models) <==> m != "" && Listed(models, m)
  {
    if models != [] {
      var init, raw := models[..|models| - 1], models[|models| - 1];
      DistinctIds(init, m);
      ListedSnoc(init, raw, m);
      assert models == init + [raw];
    }
  }

  lemma {:induction false} DistinctNoRepeats(models: seq<string>)
    ensures NoRepeats(Distinct(models))
  {
    if models != [] {
      DistinctNoRepeats(models[..|models| - 1]);
    }
  }

  // ---- Sorting ----

  lemma {:induction false} InsertElements(x: string, s: seq<string>, leq: Collation)
    ensures multiset(Insert(x, s, leq)) == multiset([x]) + multiset(s)
  {
    if !(s == [] || leq(x, s[0])) {
      InsertElements(x, s[1..], leq);
      assert s == [s[0]] + s[1..];
    }
  }

  lemma {:induction false} SortElements(s: seq<string>, leq: Collation)
    ensures multiset(Sort(s, leq)) == multiset(s)
  {
    if s != [] {
      SortElements(s[1..], leq);
      InsertElements(s[0], Sort(s[1..], leq), leq);
      assert s == [s[0]] + s[1..];
    }
  }

  lemma SameElements(s: seq<string>, t: seq<string>, m: string)
    requires multiset(s) == multiset(t)
    ensures m in s <==> m in t
  {
    assert m in s <==> m in multiset(s);
    assert m in t <==> m in multiset(t);
  }

  lemma SortedTail(s: seq<string>, leq: Collation)
    requires Sorted(s, leq) && s != []
    ensures Sorted(s[1..], leq) && forall m :: m in s[1..] ==> leq(s[0], m)
  {
  }

  lemma InsertHas(x: string, s: seq<string>, leq: Collation, m: string)
    ensures m in Insert(x, s, leq) <==> m == x || m in s
  {
    InsertElements(x, s, leq);
    assert m in Insert(x, s, leq) <==> m in multiset(Insert(x, s, leq));
    assert m in s <==> m in multiset(s);
  }

  lemma {:induction false} InsertSorted(x: string, s: seq<string>, leq: Collation)
    requires Collates(leq) && Sorted(s, leq)
    ensures Sorted(Insert(x, s, leq), leq)
  {
    if s == [] {
    } else if leq(x, s[0]) {
      SortedTail(s, leq);
      forall m | m in s ensures leq(x, m) { assert m == s[0] || m in s[1..]; }
    } else {
      SortedTail(s, leq);
      InsertSorted(x, s[1..], leq);
      forall m | m in Insert(x, s[1..], leq) ensures leq(s[0], m) { InsertHas(x, s[1..], leq, m); }
    }
  }

  lemma {:induction false} SortSorted(s: seq<string>, leq: Collation)
    requires Collates(leq)
    ensures Sorted(Sort(s, leq), leq)
  {
    if s != [] {
      SortSorted(s[1..], leq);
      InsertSorted(s[0], Sort(s[1..], leq), leq);
    }
  }

  // ---- The partition ----

  lemma {:induction false} BucketCount(ds: seq<string>, family: Classifier, f: Family, m: string)
    ensures multiset(Bucket(ds, family, f))[m] == if family(m) == f then multiset(ds)[m] else 0
  {
    if ds != [] {
      BucketCount(ds[1..], family, f, m);
      assert ds == [ds[0]] + ds[1..];
    }
  }

  function Members(groups: seq<Group>): seq<string> {
    if groups == [] then [] else groups[0].models + Members(groups[1..])
  }

  lemma {:induction false} MembersConcat(g: seq<Group>, h: seq<Group>)
    ensures Members(g + h) == Members(g) + Members(h)
  {
    if g == [] {
      assert g + h == h;
    } else {
      assert (g + h)[1..] == g[1..] + h;
      MembersConcat(g[1..], h);
    }
  }

  lemma GroupForMembers(bucket: seq<string>, f: Family, leq: Collation)
    ensures multiset(Members(GroupFor(bucket, f, leq))) == multiset(bucket)
  {
    if bucket != [] {
      SortElements(bucket, leq);
      var g := Group(f, Sort(bucket, leq));
      assert [g][1..] == [];
      assert Members([g]) == g.models;
    }
  }

  ghost predicate OnceEach(order: seq<Family>) {
    forall i, j :: 0 <= i < j < |order| ==> order[i] != order[j]
  }

  lemma HeadCount(head: seq<Group>, tail: seq<Group>, m: string)
    ensures multiset(Members(head + tail))[m] == multiset(Members(head))[m] + multiset(Members(tail))[m]
  {
    MembersConcat(head, tail);
  }

  lemma {:induction false} MemberCount(ds: seq<string>, order: seq<Family>, family: Classifier, leq: Collation, m: string)
    requires OnceEach(order)
    ensures multiset(Members(GroupsFor(ds, order, family, leq)))[m] == if family(m) in order then multiset(ds)[m] else 0
  {
    if order != [] {
      MemberCount(ds, order[1..], family, leq, m);
      var bucket := Bucket(ds, family, order[0]);
      HeadCount(GroupFor(bucket, order[0], leq), GroupsFor(ds, order[1..], family, leq), m);
      GroupForMembers(bucket, order[0], leq);
      BucketCount(ds, family, order[0], m);
    }
  }

  lemma OrderIsComplete()
    ensures OnceEach(FAMILY_ORDER) && forall f :: f in FAMILY_ORDER
  {
    forall f ensures f in FAMILY_ORDER { EveryFamilyListed(f); }
  }

  /** Every distinct id is in the groups exactly once, and nothing else is. */
  lemma GroupsPartition(models: seq<string>, leq: Collation)
    ensures multiset(Members(Groups(models, leq))) == multiset(Distinct(models))
    ensures NoRepeats(Distinct(models))
    ensures forall m :: m in Distinct(models) <==> m != "" && Listed(models, m)
  {
    OrderIsComplete();
    DistinctNoRepeats(models);
    forall m ensures m in Distinct(models) <==> m != "" && Listed(models, m) { DistinctIds(models, m); }
    SameCounts(Distinct(models), FAMILY_ORDER, FamilyOf, leq);
  }

  lemma SameCounts(ds: seq<string>, order: seq<Family>, family: Classifier, leq: Collation)
    requires OnceEach(order) && forall f :: f in order
    ensures multiset(Members(GroupsFor(ds, order, family, leq))) == multiset(ds)
  {
    forall m ensures multiset(Members(GroupsFor(ds, order, family, leq)))[m] == multiset(ds)[m] {
      MemberCount(ds, order, family, leq, m);
    }
  }

  function Rank(f: Family): nat {
    match f
    case Gpt => 0 case OSeries => 1 case Codex => 2 case Claude => 3 case Gemini => 4 case DeepSeek => 5
    case Qwen => 6 case Glm => 7 case Kimi => 8 case Grok => 9 case Llama => 10 case Mistral => 11 case Other => 12
  }

  /** A group holds ids of its own family only, at least one, sorted. */
  ghost predicate GoodGroup(g: Group, family: Classifier, leq: Collation) {
    && g.models != []
    && Sorted(g.models, leq)
    && forall m :: m in g.models ==> family(m) == g.family
  }

  ghost predicate GoodGroups(groups: seq<Group>, family: Classifier, leq: Collation) {
    forall i :: 0 <= i < |groups| ==> GoodGroup(groups[i], family, leq)
  }

  ghost predicate RankOrder(order: seq<Family>) {
    forall i, j :: 0 <= i < j < |order| ==> Rank(order[i]) < Rank(order[j])
  }

  ghost predicate GroupOrder(groups: seq<Group>) {
    forall i, j :: 0 <= i < j < |groups| ==> Rank(groups[i].family) < Rank(groups[j].family)
  }

  lemma BucketFamily(ds: seq<string>, family: Classifier, f: Family, m: string)
    requires m in Bucket(ds, family, f)
    ensures family(m) == f && m in ds
  {
    BucketCount(ds, family, f, m);
    assert m in multiset(Bucket(ds, family, f));
    assert m in multiset(ds);
  }

  lemma SortedBucketGood(ds: seq<string>, family: Classifier, f: Family, leq: Collation)
    requires Collates(leq)
    ensures GoodGroups(GroupFor(Bucket(ds, family, f), f, leq), family, leq)
  {
    var b := Bucket(ds, family, f);
    SortSorted(b, leq);
    SortElements(b, leq);
    forall m | m in Sort(b, leq) ensures family(m) == f {
      SameElements(Sort(b, leq), b, m);
      BucketFamily(ds, family, f, m);
    }
    SortLength(b, leq);
  }

  lemma SortLength(s: seq<string>, leq: Collation)
    ensures |Sort(s, leq)| == |s|
  {
    SortElements(s, leq);
    assert |multiset(Sort(s, leq))| == |multiset(s)|;
  }

  lemma {:induction false} GroupsGood(ds: seq<string>, order: seq<Family>, family: Classifier, leq: Collation)
    requires Collates(leq)
    ensures GoodGroups(GroupsFor(ds, order, family, leq), family, leq)
  {
    if order != [] {
      SortedBucketGood(ds, family, order[0], leq);
      GroupsGood(ds, order[1..], family, leq);
    }
  }

  ghost predicate FamiliesIn(groups: seq<Group>, order: seq<Family>) {
    forall i :: 0 <= i < |groups| ==> groups[i].family in order
  }

  lemma RankedHead(head: seq<Group>, tail: seq<Group>, f: Family, order: seq<Family>)
    requires |head| <= 1 && (head != [] ==> head[0].family == f)
    requires GroupOrder(tail) && FamiliesIn(tail, order) && forall g :: g in order ==> Rank(f) < Rank(g)
    ensures GroupOrder(head + tail) && FamiliesIn(head + tail, [f] + order)
  {
  }

  lemma {:induction false} GroupsRanked(ds: seq<string>, order: seq<Family>, family: Classifier, leq: Collation)
    requires RankOrder(order)
    ensures GroupOrder(GroupsFor(ds, order, family, leq)) && FamiliesIn(GroupsFor(ds, order, family, leq), order)
  {
    if order != [] {
      GroupsRanked(ds, order[1..], family, leq);
      RankedHead(GroupFor(Bucket(ds, family, order[0]), order[0], leq), GroupsFor(ds, order[1..], family, leq),
                 order[0], order[1..]);
      assert order == [order[0]] + order[1..];
    }
  }

  lemma OrderIsRanked()
    ensures RankOrder(FAMILY_ORDER)
  {
  }

  /** The groups are not empty, hold one family each and are sorted; they come in the order of the table,
      so no family comes twice and `Other` comes last. */
  lemma GroupsShape(models: seq<string>, leq: Collation)
    requires Collates(leq)
    ensures GoodGroups(Groups(models, leq), FamilyOf, leq)
    ensures GroupOrder(Groups(models, leq))
  {
    OrderIsRanked();
    GroupsGood(Distinct(models), FAMILY_ORDER, FamilyOf, leq);
    GroupsRanked(Distinct(models), FAMILY_ORDER, FamilyOf, leq);
  }
}
