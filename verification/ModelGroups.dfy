/** Model ids grouped by family for a drop-down list. The family of an id and the collation of the
    browser are parameters: `leq(a, b)` stands for `a.localeCompare(b, "en") <= 0`. */
module ModelGroups {
  import opened Text
  import opened ModelFamilies

  datatype Group = Group(family: Family, models: seq<string>)

  type Collation = (string, string) -> bool

  type Classifier = string -> Family

  /** The trimmed ids that are not blank, each once, in order of first appearance. */
  function Distinct(models: seq<string>): seq<string> {
    if models == [] then [] else Add(Distinct(models[..|models| - 1]), Trim(JavaScript, models[|models| - 1]))
  }

  function Add(ds: seq<string>, m: string): seq<string> {
    if m == "" || m in ds then ds else ds + [m]
  }

  function Keep(s: seq<string>, p: string -> bool): seq<string> {
    if s == [] then [] else if p(s[0]) then [s[0]] + Keep(s[1..], p) else Keep(s[1..], p)
  }

  function Bucket(ds: seq<string>, family: Classifier, f: Family): seq<string> {
    if ds == [] then []
    else if family(ds[0]) == f then [ds[0]] + Bucket(ds[1..], family, f)
    else Bucket(ds[1..], family, f)
  }

  function Insert(x: string, s: seq<string>, leq: Collation): seq<string> {
    if s == [] || leq(x, s[0]) then [x] + s else [s[0]] + Insert(x, s[1..], leq)
  }

  /** A stable sort. */
  function Sort(s: seq<string>, leq: Collation): seq<string> {
    if s == [] then [] else Insert(s[0], Sort(s[1..], leq), leq)
  }

  function GroupFor(bucket: seq<string>, f: Family, leq: Collation): seq<Group> {
    if bucket == [] then [] else [Group(f, Sort(bucket, leq))]
  }

  function GroupsFor(ds: seq<string>, order: seq<Family>, family: Classifier, leq: Collation): seq<Group> {
    if order == [] then []
    else GroupFor(Bucket(ds, family, order[0]), order[0], leq) + GroupsFor(ds, order[1..], family, leq)
  }

  function GroupsBy(models: seq<string>, order: seq<Family>, family: Classifier, leq: Collation): seq<Group> {
    GroupsFor(Distinct(models), order, family, leq)
  }

  function Groups(models: seq<string>, leq: Collation): seq<Group> {
    GroupsBy(models, FAMILY_ORDER, FamilyOf, leq)
  }

  // ---- The loop ----

  ghost predicate Buckets(buckets: map<Family, seq<string>>, ds: seq<string>, family: Classifier) {
    && (forall f :: f in buckets <==> Bucket(ds, family, f) != [])
    && (forall f :: f in buckets ==> buckets[f] == Bucket(ds, family, f))
  }

  lemma {:induction false} BucketSnoc(ds: seq<string>, m: string, family: Classifier, f: Family)
    ensures Bucket(ds + [m], family, f) == if family(m) == f then Bucket(ds, family, f) + [m] else Bucket(ds, family, f)
  {
    if ds == [] {
      assert ds + [m] == [m];
    } else {
      assert (ds + [m])[1..] == ds[1..] + [m];
      BucketSnoc(ds[1..], m, family, f);
    }
  }

  lemma BucketsSnoc(buckets: map<Family, seq<string>>, ds: seq<string>, m: string, family: Classifier, bucket: seq<string>)
    requires Buckets(buckets, ds, family)
    requires bucket == (if family(m) in buckets then buckets[family(m)] else []) + [m]
    ensures Buckets(buckets[family(m) := bucket], ds + [m], family)
  {
    forall g
      ensures g in buckets[family(m) := bucket] <==> Bucket(ds + [m], family, g) != []
      ensures g in buckets[family(m) := bucket] ==> buckets[family(m) := bucket][g] == Bucket(ds + [m], family, g)
    {
      BucketSnoc(ds, m, family, g);
    }
  }

  lemma DistinctSnoc(models: seq<string>, raw: string)
    ensures Distinct(models + [raw]) == Add(Distinct(models), Trim(JavaScript, raw))
  {
    assert (models + [raw])[..|models|] == models;
  }

  lemma Upto<T>(s: seq<T>, i: nat)
    requires i < |s|
    ensures s[..i + 1] == s[..i] + [s[i]]
  {
  }

  /** One turn of the loop of `groupModelIds`. */
  method AddModel(raw: string, seen: set<string>, buckets: map<Family, seq<string>>, family: Classifier, ghost ds: seq<string>)
    returns (seen': set<string>, buckets': map<Family, seq<string>>, ghost ds': seq<string>)
    requires (forall m :: m in seen <==> m in ds) && Buckets(buckets, ds, family)
    ensures ds' == Add(ds, Trim(JavaScript, raw))
    ensures (forall m :: m in seen' <==> m in ds') && Buckets(buckets', ds', family)
  {
    var model := Trim(JavaScript, raw);
    if model == "" || model in seen {
      return seen, buckets, ds;
    }
    seen' := seen + {model};
    var bucket := (if family(model) in buckets then buckets[family(model)] else []) + [model];
    BucketsSnoc(buckets, ds, model, family, bucket);
    buckets' := buckets[family(model) := bucket];
    ds' := ds + [model];
  }

  method GroupModelsBy(models: seq<string>, order: seq<Family>, family: Classifier, leq: Collation)
    returns (groups: seq<Group>)
    ensures groups == GroupsBy(models, order, family, leq)
  {
    var seen: set<string> := {};
    var buckets: map<Family, seq<string>> := map[];
    ghost var ds: seq<string> := [];
    for i := 0 to |models|
      invariant ds == Distinct(models[..i])
      invariant forall m :: m in seen <==> m in ds
      invariant Buckets(buckets, ds, family)
    {
      Upto(models, i);
      DistinctSnoc(models[..i], models[i]);
      seen, buckets, ds := AddModel(models[i], seen, buckets, family, ds);
    }
    assert models[..|models|] == models;
    groups := Ordered(buckets, order, ds, family, leq);
  }

  /** The families that have a bucket, in the order of the table. */
  method Ordered(buckets: map<Family, seq<string>>, order: seq<Family>, ghost ds: seq<string>, ghost family: Classifier, leq: Collation)
    returns (groups: seq<Group>)
    requires Buckets(buckets, ds, family)
    ensures groups == GroupsFor(ds, order, family, leq)
  {
    groups := [];
    for i := 0 to |order|
      invariant groups + GroupsFor(ds, order[i..], family, leq) == GroupsFor(ds, order, family, leq)
    {
      var f := order[i];
      assert order[i..][0] == f && order[i..][1..] == order[i + 1..];
      Assoc(groups, GroupFor(Bucket(ds, family, f), f, leq), GroupsFor(ds, order[i + 1..], family, leq));
      if f in buckets {
        groups := groups + [Group(f, Sort(buckets[f], leq))];
      }
    }
  }

  method GroupModelIds(models: seq<string>, leq: Collation) returns (groups: seq<Group>)
    ensures groups == Groups(models, leq)
  {
    groups := GroupModelsBy(models, FAMILY_ORDER, FamilyOf, leq);
  }
}
