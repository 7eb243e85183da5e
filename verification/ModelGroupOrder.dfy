/** When the order of the ids matters for the groups, and how filtering and grouping commute. */
module ModelGroupOrder {
  import opened Text
  import opened ModelFamilies
  import opened ModelGroups
  import opened ModelGroupLaws

  // ---- Keeping some ids commutes with sorting ----

  lemma {:induction false} KeepInsert(x: string, s: seq<string>, leq: Collation, p: string -> bool)
    requires Collates(leq) && Sorted(s, leq)
    ensures Keep(Insert(x, s, leq), p) == if p(x) then Insert(x, Keep(s, p), leq) else Keep(s, p)
  {
    if s == [] {
      assert [x][1..] == [];
    } else if leq(x, s[0]) {
      assert ([x] + s)[1..] == s;
      if p(x) { InsertFirst(x, s, leq, p); }
    } else {
      SortedTail(s, leq);
      KeepInsert(x, s[1..], leq, p);
      var t := Insert(x, s[1..], leq);
      assert ([s[0]] + t)[1..] == t;
      if !p(s[0]) { assert Keep(s, p) == Keep(s[1..], p); }
    }
  }

  lemma {:induction false} KeepHas(s: seq<string>, p: string -> bool, m: string)
    ensures m in Keep(s, p) <==> m in s && p(m)
  {
    if s != [] {
      KeepHas(s[1..], p, m);
      assert s == [s[0]] + s[1..];
    }
  }

  lemma InsertFirst(x: string, s: seq<string>, leq: Collation, p: string -> bool)
    requires Collates(leq) && Sorted(s, leq) && s != [] && leq(x, s[0])
    ensures Insert(x, Keep(s, p), leq) == [x] + Keep(s, p)
  {
    if Keep(s, p) != [] {
      var y := Keep(s, p)[0];
      KeepHas(s, p, y);
      assert y == s[0] || leq(s[0], y);
    }
  }

  lemma {:induction false} KeepSort(s: seq<string>, leq: Collation, p: string -> bool)
    requires Collates(leq)
    ensures Keep(Sort(s, leq), p) == Sort(Keep(s, p), leq)
  {
    if s != [] {
      KeepSort(s[1..], leq, p);
      SortSorted(s[1..], leq);
      KeepInsert(s[0], Sort(s[1..], leq), leq, p);
      if p(s[0]) {
        assert ([s[0]] + Keep(s[1..], p))[1..] == Keep(s[1..], p);
      }
    }
  }

  lemma {:induction false} KeepBucket(ds: seq<string>, family: Classifier, f: Family, p: string -> bool)
    ensures Bucket(Keep(ds, p), family, f) == Keep(Bucket(ds, family, f), p)
  {
    if ds != [] {
      KeepBucket(ds[1..], family, f, p);
    }
  }

  // ---- Filtering ----

  predicate At(s: string, q: string, i: nat) {
    i + |q| <= |s| && s[i..i + |q|] == q
  }

  /** `s.includes(q)`. */
  predicate Includes(s: string, q: string) {
    exists i :: 0 <= i <= |s| && At(s, q, i)
  }

  predicate Mentions(model: string, query: string) {
    Includes(Lower(model), query)
  }

  function NormalQuery(query: string): string {
    Lower(Trim(JavaScript, query))
  }

  /** The groups with only the ids that pass, and without the groups this leaves empty. */
  function Narrowed(groups: seq<Group>, p: string -> bool): seq<Group> {
    if groups == [] then []
    else
      var kept := Keep(groups[0].models, p);
      (if kept == [] then [] else [groups[0].(models := kept)]) + Narrowed(groups[1..], p)
  }

  lemma {:induction false} NarrowedConcat(g: seq<Group>, h: seq<Group>, p: string -> bool)
    ensures Narrowed(g + h, p) == Narrowed(g, p) + Narrowed(h, p)
  {
    if g == [] {
      assert g + h == h;
    } else {
      assert (g + h)[1..] == g[1..] + h;
      NarrowedConcat(g[1..], h, p);
    }
  }

  lemma NarrowedGroup(bucket: seq<string>, f: Family, leq: Collation, p: string -> bool)
    requires Collates(leq)
    ensures Narrowed(GroupFor(bucket, f, leq), p) == GroupFor(Keep(bucket, p), f, leq)
  {
    if bucket != [] {
      KeepSort(bucket, leq, p);
      SortLength(Keep(bucket, p), leq);
      var g := Group(f, Sort(bucket, leq));
      assert [g][1..] == [];
    }
  }

  lemma {:induction false} NarrowedGroups(ds: seq<string>, order: seq<Family>, family: Classifier, leq: Collation, p: string -> bool)
    requires Collates(leq)
    ensures Narrowed(GroupsFor(ds, order, family, leq), p) == GroupsFor(Keep(ds, p), order, family, leq)
  {
    if order != [] {
      var bucket := Bucket(ds, family, order[0]);
      NarrowedGroups(ds, order[1..], family, leq, p);
      NarrowedConcat(GroupFor(bucket, order[0], leq), GroupsFor(ds, order[1..], family, leq), p);
      NarrowedGroup(bucket, order[0], leq, p);
      KeepBucket(ds, family, order[0], p);
    }
  }

  lemma {:induction false} KeepSnoc(s: seq<string>, m: string, p: string -> bool)
    ensures Keep(s + [m], p) == if p(m) then Keep(s, p) + [m] else Keep(s, p)
  {
    if s == [] {
      assert s + [m] == [m];
    } else {
      assert (s + [m])[1..] == s[1..] + [m];
      KeepSnoc(s[1..], m, p);
    }
  }

  ghost predicate SeesTrimmed(models: seq<string>, p: string -> bool) {
    forall i :: 0 <= i < |models| ==> p(models[i]) == p(Trim(JavaScript, models[i]))
  }

  lemma AddKept(ds: seq<string>, m: string, p: string -> bool)
    requires p(m)
    ensures Keep(Add(ds, m), p) == Add(Keep(ds, p), m)
  {
    KeepHas(ds, p, m);
    if m !in ds { KeepSnoc(ds, m, p); }
  }

  lemma AddDropped(ds: seq<string>, m: string, p: string -> bool)
    requires !p(m)
    ensures Keep(Add(ds, m), p) == Keep(ds, p)
  {
    if m !in ds { KeepSnoc(ds, m, p); }
  }

  /** Filtering the raw list is filtering the distinct ids, for a filter that does not see the white
      space around an id. */
  lemma {:induction false} KeepDistinct(models: seq<string>, p: string -> bool)
    requires SeesTrimmed(models, p)
    ensures Distinct(Keep(models, p)) == Keep(Distinct(models), p)
  {
    if models != [] {
      var init, raw := models[..|models| - 1], models[|models| - 1];
      KeepDistinct(init, p);
      assert models == init + [raw];
      KeepSnoc(init, raw, p);
      DistinctSnoc(init, raw);
      var m := Trim(JavaScript, raw);
      if p(raw) {
        DistinctSnoc(Keep(init, p), raw);
        AddKept(Distinct(init), m, p);
      } else {
        AddDropped(Distinct(init), m, p);
      }
    }
  }

  lemma QueryTight(query: string)
    ensures Tight(JavaScript, NormalQuery(query))
  {
    var t := Trim(JavaScript, query);
    var before, after := TrimParts(JavaScript, query);
  }

  lemma LowerParts(a: string, b: string, c: string)
    ensures Lower(a + b + c) == Lower(a) + Lower(b) + Lower(c)
  {
  }

  lemma IncludesPadded(a: string, b: string, c: string, q: string)
    requires Blank(JavaScript, a) && Blank(JavaScript, c) && Tight(JavaScript, q) && q != ""
    ensures Includes(a + b + c, q) <==> Includes(b, q)
  {
    var s := a + b + c;
    if i :| 0 <= i <= |s| && At(s, q, i) {
      assert At(b, q, i - |a|);
    }
    if i :| 0 <= i <= |b| && At(b, q, i) {
      assert At(s, q, |a| + i);
    }
  }

  lemma MentionsTrimmed(raw: string, q: string)
    requires Tight(JavaScript, q) && q != ""
    ensures Mentions(raw, q) <==> Mentions(Trim(JavaScript, raw), q)
  {
    var before, after := TrimParts(JavaScript, raw);
    var m := Trim(JavaScript, raw);
    LowerParts(before, m, after);
    IncludesPadded(Lower(before), Lower(m), Lower(after), q);
  }

  /** Filtering the ids before grouping is filtering inside the groups and dropping the empty ones. */
  lemma FilterInside(models: seq<string>, q: string, leq: Collation, p: string -> bool)
    requires Collates(leq) && Tight(JavaScript, q) && q != "" && forall m :: p(m) <==> Mentions(m, q)
    ensures Groups(Keep(models, p), leq) == Narrowed(Groups(models, leq), p)
  {
    forall i | 0 <= i < |models|
      ensures p(models[i]) == p(Trim(JavaScript, models[i]))
    {
      MentionsTrimmed(models[i], q);
    }
    KeepDistinct(models, p);
    NarrowedGroups(Distinct(models), FAMILY_ORDER, FamilyOf, leq, p);
  }

  /** `filterModelGroups`: the groups of all the ids, narrowed to those that mention the query. */
  method FilterModelGroups(models: seq<string>, query: string, leq: Collation) returns (groups: seq<Group>)
    requires Collates(leq)
    ensures var q := NormalQuery(query);
            groups == if q == "" then Groups(models, leq) else Narrowed(Groups(models, leq), m => Mentions(m, q))
  {
    var normalized := NormalQuery(query);
    if normalized == "" {
      groups := GroupModelIds(models, leq);
      return;
    }
    var p := m => Mentions(m, normalized);
    QueryTight(query);
    FilterInside(models, normalized, leq, p);
    groups := GroupModelIds(Keep(models, p), leq);
  }

  // ---- The order of the input ----

  /** No two different ids of one family tie in the collation. */
  ghost predicate NoTies(ds: seq<string>, family: Classifier, leq: Collation) {
    forall m, n :: m in ds && n in ds && family(m) == family(n) && leq(m, n) && leq(n, m) ==> m == n
  }

  ghost predicate SameIds(a: seq<string>, b: seq<string>) {
    forall m :: m in Distinct(a) <==> m in Distinct(b)
  }

  lemma {:induction false} CountOnce(s: seq<string>, m: string)
    requires NoRepeats(s)
    ensures multiset(s)[m] == if m in s then 1 else 0
  {
    if s != [] {
      CountOnce(s[1..], m);
      assert s == [s[0]] + s[1..];
    }
  }

  lemma SameDistinct(a: seq<string>, b: seq<string>)
    requires SameIds(a, b)
    ensures multiset(Distinct(a)) == multiset(Distinct(b))
  {
    DistinctNoRepeats(a);
    DistinctNoRepeats(b);
    forall m ensures multiset(Distinct(a))[m] == multiset(Distinct(b))[m] {
      CountOnce(Distinct(a), m);
      CountOnce(Distinct(b), m);
    }
  }

  ghost predicate TieFree(s: seq<string>, leq: Collation) {
    forall m, n :: m in s && n in s && leq(m, n) && leq(n, m) ==> m == n
  }

  lemma SortedHeads(u: seq<string>, v: seq<string>, leq: Collation)
    requires Collates(leq) && Sorted(u, leq) && Sorted(v, leq) && multiset(u) == multiset(v) && u != [] && v != []
    ensures leq(u[0], v[0])
  {
    SameElements(u, v, v[0]);
    assert v[0] == u[0] || leq(u[0], v[0]);
  }

  lemma SameTails(u: seq<string>, v: seq<string>)
    requires multiset(u) == multiset(v) && u != [] && v != [] && u[0] == v[0]
    ensures multiset(u[1..]) == multiset(v[1..])
  {
    assert u == [u[0]] + u[1..];
    assert v == [v[0]] + v[1..];
    assert multiset(u[1..]) == multiset(u) - multiset([u[0]]);
  }

  lemma {:induction false} SortedUnique(u: seq<string>, v: seq<string>, leq: Collation)
    requires Collates(leq) && Sorted(u, leq) && Sorted(v, leq) && multiset(u) == multiset(v) && TieFree(u, leq)
    ensures u == v
  {
    assert |multiset(u)| == |multiset(v)|;
    if u != [] {
      SortedHeads(u, v, leq);
      SortedHeads(v, u, leq);
      SameElements(u, v, v[0]);
      SameTails(u, v);
      SortedTail(u, leq);
      SortedTail(v, leq);
      SortedUnique(u[1..], v[1..], leq);
      assert u == [u[0]] + u[1..] && v == [v[0]] + v[1..];
    }
  }

  lemma SameBucketSorted(a: seq<string>, b: seq<string>, family: Classifier, f: Family, leq: Collation)
    requires Collates(leq) && multiset(a) == multiset(b) && NoTies(a, family, leq)
    ensures GroupFor(Bucket(a, family, f), f, leq) == GroupFor(Bucket(b, family, f), f, leq)
  {
    var x, y := Bucket(a, family, f), Bucket(b, family, f);
    forall m ensures multiset(x)[m] == multiset(y)[m] {
      BucketCount(a, family, f, m);
      BucketCount(b, family, f, m);
    }
    assert multiset(x) == multiset(y);
    SameLength(x, y);
    SortElements(x, leq);
    SortElements(y, leq);
    SortSorted(x, leq);
    SortSorted(y, leq);
    SortTieFree(a, family, f, leq);
    SortedUnique(Sort(x, leq), Sort(y, leq), leq);
  }

  lemma SameLength(x: seq<string>, y: seq<string>)
    requires multiset(x) == multiset(y)
    ensures |x| == |y|
  {
    assert |multiset(x)| == |multiset(y)|;
  }

  lemma SortTieFree(a: seq<string>, family: Classifier, f: Family, leq: Collation)
    requires NoTies(a, family, leq)
    ensures TieFree(Sort(Bucket(a, family, f), leq), leq)
  {
    var x := Bucket(a, family, f);
    SortElements(x, leq);
    forall m | m in Sort(x, leq) ensures m in a && family(m) == f {
      SameElements(Sort(x, leq), x, m);
      BucketFamily(a, family, f, m);
    }
  }

  lemma {:induction false} SameGroups(a: seq<string>, b: seq<string>, order: seq<Family>, family: Classifier, leq: Collation)
    requires Collates(leq) && multiset(a) == multiset(b) && NoTies(a, family, leq)
    ensures GroupsFor(a, order, family, leq) == GroupsFor(b, order, family, leq)
  {
    if order != [] {
      SameBucketSorted(a, b, family, order[0], leq);
      SameGroups(a, b, order[1..], family, leq);
    }
  }

  /** The members of the groups of ids that are all of one family. */
  lemma {:induction false} OneFamily(ds: seq<string>, f: Family, order: seq<Family>, family: Classifier, leq: Collation)
    requires OnceEach(order) && forall m :: m in ds ==> family(m) == f
    ensures Members(GroupsFor(ds, order, family, leq)) == if f in order then Sort(ds, leq) else []
  {
    if order != [] {
      var g := order[0];
      OneFamily(ds, f, order[1..], family, leq);
      MembersConcat(GroupFor(Bucket(ds, family, g), g, leq), GroupsFor(ds, order[1..], family, leq));
      WholeBucket(ds, f, g, family);
    }
  }

  lemma {:induction false} WholeBucket(ds: seq<string>, f: Family, g: Family, family: Classifier)
    requires forall m :: m in ds ==> family(m) == f
    ensures Bucket(ds, family, g) == if f == g then ds else []
  {
    if ds != [] {
      WholeBucket(ds[1..], f, g, family);
      assert ds == [ds[0]] + ds[1..];
    }
  }

  lemma {:induction false} DistinctFront(front: seq<string>, rest: seq<string>, p: string -> bool)
    requires forall x :: p(x) ==> x in Distinct(front)
    ensures Keep(Distinct(front + rest), p) == Keep(Distinct(front), p)
    ensures forall x :: x in Distinct(front) ==> x in Distinct(front + rest)
  {
    if rest == [] {
      assert front + rest == front;
    } else {
      var init, raw := rest[..|rest| - 1], rest[|rest| - 1];
      assert front + rest == (front + init) + [raw];
      DistinctFront(front, init, p);
      DistinctSnoc(front + init, raw);
      var m := Trim(JavaScript, raw);
      if m != "" && m !in Distinct(front + init) {
        AddDropped(Distinct(front + init), m, p);
      }
    }
  }

  lemma PairDistinct(m: string, n: string)
    requires m != n && m != "" && n != "" && Tight(JavaScript, m) && Tight(JavaScript, n)
    ensures Distinct([m, n]) == [m, n]
  {
    TrimTight(JavaScript, m);
    TrimTight(JavaScript, n);
    assert [m] + [n] == [m, n] && [] + [m] == [m];
    DistinctSnoc([], m);
    DistinctSnoc([m], n);
  }

  lemma PairSorted(m: string, n: string, leq: Collation)
    requires leq(m, n)
    ensures Sort([m, n], leq) == [m, n]
  {
    assert [m, n][1..] == [n] && [n][1..] == [];
    assert Sort([n], leq) == [n];
  }

  lemma PairKept(m: string, n: string, p: string -> bool)
    requires p(m) && p(n)
    ensures Keep([m, n], p) == [m, n]
  {
    assert [m, n][1..] == [n] && [n][1..] == [];
    assert Keep([n], p) == [n];
  }

  /** Two ids put in front of a list come out in the order they were put there, if they tie. */
  lemma PairInFront(m: string, n: string, models: seq<string>, leq: Collation, p: string -> bool)
    requires Collates(leq) && leq(m, n) && FamilyOf(m) == FamilyOf(n) && forall x :: p(x) <==> x == m || x == n
    requires m != n && m != "" && n != "" && Tight(JavaScript, m) && Tight(JavaScript, n)
    ensures Members(Narrowed(Groups([m, n] + models, leq), p)) == [m, n]
    ensures forall x :: x in [m, n] ==> x in Distinct([m, n] + models)
  {
    PairDistinct(m, n);
    PairKept(m, n, p);
    DistinctFront([m, n], models, p);
    NarrowedGroups(Distinct([m, n] + models), FAMILY_ORDER, FamilyOf, leq, p);
    OrderIsComplete();
    OneFamily([m, n], FamilyOf(m), FAMILY_ORDER, FamilyOf, leq);
    PairSorted(m, n, leq);
  }

  lemma PairKeepsIds(m: string, n: string, models: seq<string>)
    requires m in Distinct(models) && n in Distinct(models)
    ensures SameIds(models, [m, n] + models)
    ensures m != "" && n != "" && Tight(JavaScript, m) && Tight(JavaScript, n)
  {
    ListedTight(models, m);
    ListedTight(models, n);
    forall x ensures x in Distinct(models) <==> x in Distinct([m, n] + models) {
      PairListed(m, n, models, x);
      DistinctIds(models, x);
      DistinctIds([m, n] + models, x);
    }
  }

  lemma ListedTight(models: seq<string>, m: string)
    requires m in Distinct(models)
    ensures m != "" && Tight(JavaScript, m) && Trim(JavaScript, m) == m && Listed(models, m)
  {
    DistinctIds(models, m);
    var i :| 0 <= i < |models| && Trim(JavaScript, models[i]) == m;
    TrimTwice(JavaScript, models[i]);
    var before, after := TrimParts(JavaScript, models[i]);
  }

  lemma PairListed(m: string, n: string, models: seq<string>, x: string)
    requires Trim(JavaScript, m) == m && Trim(JavaScript, n) == n && Listed(models, m) && Listed(models, n)
    ensures Listed([m, n] + models, x) <==> Listed(models, x)
  {
    var all := [m, n] + models;
    if i :| 0 <= i < |models| && Trim(JavaScript, models[i]) == x {
      assert all[i + 2] == models[i];
    }
    if i :| 0 <= i < |all| && Trim(JavaScript, all[i]) == x {
      if i >= 2 { assert models[i - 2] == all[i]; }
    }
  }

  /** Two ids of one family that tie show the order of the input in the groups. */
  lemma TieShowsOrder(models: seq<string>, m: string, n: string, leq: Collation) returns (a: seq<string>, b: seq<string>)
    requires Collates(leq) && m in Distinct(models) && n in Distinct(models) && m != n
    requires FamilyOf(m) == FamilyOf(n) && leq(m, n) && leq(n, m)
    ensures SameIds(models, a) && SameIds(models, b) && Groups(a, leq) != Groups(b, leq)
  {
    a, b := [m, n] + models, [n, m] + models;
    var p := x => x == m || x == n;
    PairKeepsIds(m, n, models);
    PairKeepsIds(n, m, models);
    PairInFront(m, n, models, leq, p);
    PairInFront(n, m, models, leq, p);
    assert [m, n][0] != [n, m][0];
  }

  lemma TieFreeOrder(models: seq<string>, other: seq<string>, leq: Collation)
    requires Collates(leq) && SameIds(models, other) && NoTies(Distinct(models), FamilyOf, leq)
    ensures Groups(models, leq) == Groups(other, leq)
  {
    SameDistinct(models, other);
    SameGroups(Distinct(models), Distinct(other), FAMILY_ORDER, FamilyOf, leq);
  }

  /** The groups depend on the set of ids alone, whatever the order and the repeats of the input, exactly
      when no two different ids of one family tie in the collation. */
  lemma OrderIrrelevantIff(models: seq<string>, leq: Collation)
    requires Collates(leq)
    ensures NoTies(Distinct(models), FamilyOf, leq) <==>
            forall other :: SameIds(models, other) ==> Groups(other, leq) == Groups(models, leq)
  {
    if NoTies(Distinct(models), FamilyOf, leq) {
      forall other | SameIds(models, other) ensures Groups(other, leq) == Groups(models, leq) {
        TieFreeOrder(models, other, leq);
      }
    } else {
      var m, n :| m in Distinct(models) && n in Distinct(models) && FamilyOf(m) == FamilyOf(n) && leq(m, n) && leq(n, m) && m != n;
      var a, b := TieShowsOrder(models, m, n, leq);
    }
  }
}
