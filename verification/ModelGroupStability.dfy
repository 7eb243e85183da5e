/** Ids that the collation does not tell apart stand in the order they were first listed in. */
module ModelGroupStability {
  import opened Text
  import opened ModelFamilies
  import opened ModelGroups
  import opened ModelGroupLaws

  ghost predicate Precedes(s: seq<string>, a: string, b: string) {
    exists p, q :: 0 <= p < q < |s| && s[p] == a && s[q] == b
  }

  lemma FirstPrecedes(s: seq<string>, a: string, b: string)
    requires b in s
    ensures Precedes([a] + s, a, b)
  {
    var q :| 0 <= q < |s| && s[q] == b;
    assert ([a] + s)[0] == a && ([a] + s)[q + 1] == b;
  }

  lemma BehindFirst(s: seq<string>, x: string, a: string, b: string)
    requires Precedes(s, a, b)
    ensures Precedes([x] + s, a, b)
  {
    var p, q :| 0 <= p < q < |s| && s[p] == a && s[q] == b;
    assert ([x] + s)[p + 1] == a && ([x] + s)[q + 1] == b;
  }

  lemma PrecedesMember(s: seq<string>, a: string, b: string)
    requires Precedes(s, a, b)
    ensures a in s && b in s
  {
  }

  lemma PrecedesTail(s: seq<string>, a: string, b: string)
    requires Precedes(s, a, b) && s[0] != a
    ensures Precedes(s[1..], a, b)
  {
    var p, q :| 0 <= p < q < |s| && s[p] == a && s[q] == b;
    assert s[1..][p - 1] == a && s[1..][q - 1] == b;
  }

  lemma {:induction false} InsertMember(x: string, s: seq<string>, leq: Collation, m: string)
    ensures m in Insert(x, s, leq) <==> m == x || m in s
  {
    if !(s == [] || leq(x, s[0])) {
      InsertMember(x, s[1..], leq, m);
      assert s == [s[0]] + s[1..];
    }
  }

  /** A new id goes in front of all it is not above. */
  lemma {:induction false} InsertedBefore(x: string, s: seq<string>, leq: Collation, b: string)
    requires b in s && leq(x, b)
    ensures Precedes(Insert(x, s, leq), x, b)
  {
    if leq(x, s[0]) {
      FirstPrecedes(s, x, b);
    } else {
      assert s == [s[0]] + s[1..];
      InsertedBefore(x, s[1..], leq, b);
      BehindFirst(Insert(x, s[1..], leq), s[0], x, b);
    }
  }

  lemma {:induction false} InsertKeepsOrder(x: string, s: seq<string>, leq: Collation, a: string, b: string)
    requires Precedes(s, a, b)
    ensures Precedes(Insert(x, s, leq), a, b)
  {
    if leq(x, s[0]) {
      BehindFirst(s, x, a, b);
    } else if s[0] == a {
      var p, q :| 0 <= p < q < |s| && s[p] == a && s[q] == b;
      assert s[1..][q - 1] == b;
      InsertMember(x, s[1..], leq, b);
      FirstPrecedes(Insert(x, s[1..], leq), a, b);
    } else {
      PrecedesTail(s, a, b);
      InsertKeepsOrder(x, s[1..], leq, a, b);
      BehindFirst(Insert(x, s[1..], leq), s[0], a, b);
    }
  }

  lemma {:induction false} SortMember(s: seq<string>, leq: Collation, m: string)
    ensures m in Sort(s, leq) <==> m in s
  {
    if s != [] {
      SortMember(s[1..], leq, m);
      InsertMember(s[0], Sort(s[1..], leq), leq, m);
      assert s == [s[0]] + s[1..];
    }
  }

  lemma {:induction false} SortKeepsOrder(s: seq<string>, leq: Collation, a: string, b: string)
    requires Precedes(s, a, b) && leq(a, b)
    ensures Precedes(Sort(s, leq), a, b)
  {
    if s[0] == a {
      var p, q :| 0 <= p < q < |s| && s[p] == a && s[q] == b;
      assert s[1..][q - 1] == b;
      SortMember(s[1..], leq, b);
      InsertedBefore(a, Sort(s[1..], leq), leq, b);
    } else {
      PrecedesTail(s, a, b);
      SortKeepsOrder(s[1..], leq, a, b);
      InsertKeepsOrder(s[0], Sort(s[1..], leq), leq, a, b);
    }
  }

  lemma {:induction false} BucketMember(ds: seq<string>, family: Classifier, f: Family, m: string)
    ensures m in Bucket(ds, family, f) <==> m in ds && family(m) == f
  {
    if ds != [] {
      BucketMember(ds[1..], family, f, m);
      assert ds == [ds[0]] + ds[1..];
    }
  }

  lemma {:induction false} BucketKeepsOrder(ds: seq<string>, family: Classifier, f: Family, a: string, b: string)
    requires Precedes(ds, a, b) && family(a) == f && family(b) == f
    ensures Precedes(Bucket(ds, family, f), a, b)
  {
    if ds[0] == a {
      var p, q :| 0 <= p < q < |ds| && ds[p] == a && ds[q] == b;
      assert ds[1..][q - 1] == b;
      BucketMember(ds[1..], family, f, b);
      FirstPrecedes(Bucket(ds[1..], family, f), a, b);
    } else {
      PrecedesTail(ds, a, b);
      BucketKeepsOrder(ds[1..], family, f, a, b);
      if family(ds[0]) == f { BehindFirst(Bucket(ds[1..], family, f), ds[0], a, b); }
    }
  }

  lemma AddKeepsOrder(ds: seq<string>, m: string, a: string, b: string)
    requires Precedes(ds, a, b) || (a in ds && m == b && b !in ds && b != "")
    ensures Precedes(Add(ds, m), a, b)
  {
    if Precedes(ds, a, b) {
      var p, q :| 0 <= p < q < |ds| && ds[p] == a && ds[q] == b;
      assert Add(ds, m)[p] == a && Add(ds, m)[q] == b;
    } else {
      var p :| 0 <= p < |ds| && ds[p] == a;
      assert Add(ds, m)[p] == a && Add(ds, m)[|ds|] == b;
    }
  }

  /** `a` is listed before `b` is listed for the first time. */
  ghost predicate ListedFirst(models: seq<string>, a: string, b: string) {
    Listed(models, b) && exists i :: 0 <= i < |models| && Trim(JavaScript, models[i]) == a && !Listed(models[..i + 1], b)
  }

  lemma {:induction false} DistinctKeepsOrder(models: seq<string>, a: string, b: string)
    requires a != "" && b != "" && ListedFirst(models, a, b)
    ensures Precedes(Distinct(models), a, b)
  {
    var n := |models| - 1;
    var init := models[..n];
    var i :| 0 <= i < |models| && Trim(JavaScript, models[i]) == a && !Listed(models[..i + 1], b);
    assert models[..n + 1] == models && i < n;
    assert models == init + [models[n]];
    ListedSnoc(init, models[n], b);
    if Listed(init, b) {
      assert init[i] == models[i] && init[..i + 1] == models[..i + 1];
      DistinctKeepsOrder(init, a, b);
    } else {
      DistinctIds(init, b);
      DistinctIds(init, a);
      assert init[i] == models[i];
    }
    AddKeepsOrder(Distinct(init), Trim(JavaScript, models[n]), a, b);
  }

  lemma {:induction false} GroupAmong(ds: seq<string>, order: seq<Family>, family: Classifier, leq: Collation, f: Family)
    requires f in order && Bucket(ds, family, f) != []
    ensures Group(f, Sort(Bucket(ds, family, f), leq)) in GroupsFor(ds, order, family, leq)
  {
    if order[0] != f { GroupAmong(ds, order[1..], family, leq, f); }
  }

  /** Of two ids of a family that the collation allows in either order, the one listed first comes first. */
  lemma TiesKeepOrder(models: seq<string>, leq: Collation, a: string, b: string)
    requires a != "" && b != "" && ListedFirst(models, a, b) && FamilyOf(a) == FamilyOf(b) && leq(a, b)
    ensures exists g :: g in Groups(models, leq) && g.family == FamilyOf(a) && Precedes(g.models, a, b)
  {
    var f, ds := FamilyOf(a), Distinct(models);
    DistinctKeepsOrder(models, a, b);
    BucketKeepsOrder(ds, FamilyOf, f, a, b);
    SortKeepsOrder(Bucket(ds, FamilyOf, f), leq, a, b);
    EveryFamilyListed(f);
    GroupAmong(ds, FAMILY_ORDER, FamilyOf, leq, f);
  }
}
