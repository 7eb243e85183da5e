/** A JavaScript object used as a bounded store: timestamped values in insertion order,
    written back as the newest `max` of them. The thread-scroll positions and the
    per-thread service tiers are both kept this way. */
module Recency {
  import opened Wrappers

  datatype Entry<+V> = Entry(key: string, value: V, at: nat)

  type Store<+V> = seq<Entry<V>>

  function Find<V>(es: Store<V>, key: string): Option<Entry<V>> {
    if es == [] then None
    else if es[0].key == key then Some(es[0])
    else Find(es[1..], key)
  }

  ghost predicate UniqueKeys<V>(es: Store<V>) {
    es == [] || (Find(es[1..], es[0].key) == None && UniqueKeys(es[1..]))
  }

  /** `es[e.key] = e`: an existing property keeps its position, a new one goes last. */
  function Put<V>(es: Store<V>, e: Entry<V>): Store<V> {
    if es == [] then [e]
    else if es[0].key == e.key then [e] + es[1..]
    else [es[0]] + Put(es[1..], e)
  }

  /** `delete es[key]`. */
  function Remove<V>(es: Store<V>, key: string): Store<V> {
    if es == [] then []
    else if es[0].key == key then es[1..]
    else [es[0]] + Remove(es[1..], key)
  }

  function Insert<V>(e: Entry<V>, es: Store<V>): Store<V> {
    if es == [] || es[0].at <= e.at then [e] + es else [es[0]] + Insert(e, es[1..])
  }

  /** Stable sort, newest first. */
  function SortByAt<V>(es: Store<V>): Store<V> {
    if es == [] then [] else Insert(es[0], SortByAt(es[1..]))
  }

  function Newest<V>(es: Store<V>, max: nat): Store<V> {
    var sorted := SortByAt(es);
    if |sorted| <= max then sorted else sorted[..max]
  }

  lemma PutFind<V>(es: Store<V>, e: Entry<V>, key: string)
    ensures Find(Put(es, e), key) == if key == e.key then Some(e) else Find(es, key)
  {
  }

  lemma PutUnique<V>(es: Store<V>, e: Entry<V>)
    requires UniqueKeys(es)
    ensures UniqueKeys(Put(es, e))
  {
    if es != [] && es[0].key != e.key {
      PutUnique(es[1..], e);
      PutFind(es[1..], e, es[0].key);
    }
  }

  lemma RemoveFind<V>(es: Store<V>, gone: string, key: string)
    requires UniqueKeys(es)
    ensures UniqueKeys(Remove(es, gone))
    ensures Find(Remove(es, gone), key) == if key == gone then None else Find(es, key)
  {
    if es != [] && es[0].key != gone {
      RemoveFind(es[1..], gone, key);
      RemoveFind(es[1..], gone, es[0].key);
    }
  }

  lemma InsertFind<V>(e: Entry<V>, es: Store<V>, key: string)
    requires UniqueKeys(es) && Find(es, e.key) == None
    ensures UniqueKeys(Insert(e, es))
    ensures Find(Insert(e, es), key) == if key == e.key then Some(e) else Find(es, key)
  {
    if es == [] || es[0].at <= e.at {
      assert ([e] + es)[1..] == es;
    } else {
      InsertFind(e, es[1..], key);
      InsertFind(e, es[1..], es[0].key);
    }
  }

  lemma SortFind<V>(es: Store<V>, key: string)
    requires UniqueKeys(es)
    ensures UniqueKeys(SortByAt(es))
    ensures Find(SortByAt(es), key) == Find(es, key)
  {
    if es != [] {
      SortFind(es[1..], key);
      SortFind(es[1..], es[0].key);
      InsertFind(es[0], SortByAt(es[1..]), key);
    }
  }

  lemma TakeFind<V>(es: Store<V>, n: nat, key: string)
    requires UniqueKeys(es) && n <= |es|
    ensures UniqueKeys(es[..n])
    ensures Find(es[..n], key) == None || Find(es[..n], key) == Find(es, key)
  {
    if n > 0 {
      assert es[..n][1..] == es[1..][..n - 1];
      TakeFind(es[1..], n - 1, key);
      TakeFind(es[1..], n - 1, es[0].key);
    }
  }

  /** Writing a store back never changes a value: each key is kept as it was or dropped. */
  lemma NewestFind<V>(es: Store<V>, max: nat, key: string)
    requires UniqueKeys(es)
    ensures UniqueKeys(Newest(es, max))
    ensures Find(Newest(es, max), key) == None || Find(Newest(es, max), key) == Find(es, key)
  {
    SortFind(es, key);
    var sorted := SortByAt(es);
    if |sorted| > max {
      TakeFind(sorted, max, key);
    }
  }

  ghost predicate Descending<V>(es: Store<V>) {
    forall i, j :: 0 <= i < j < |es| ==> es[i].at >= es[j].at
  }

  lemma DescendingCons<V>(e: Entry<V>, es: Store<V>)
    requires Descending(es) && forall x :: x in es ==> x.at <= e.at
    ensures Descending([e] + es)
  {
  }

  lemma TailBelow<V>(es: Store<V>)
    requires Descending(es) && es != []
    ensures Descending(es[1..]) && forall x :: x in es[1..] ==> x.at <= es[0].at
  {
  }

  lemma AllBelow<V>(e: Entry<V>, es: Store<V>)
    requires Descending(es) && (es != [] ==> es[0].at <= e.at)
    ensures forall x :: x in es ==> x.at <= e.at
  {
  }

  lemma InsertElements<V>(e: Entry<V>, es: Store<V>)
    ensures multiset(Insert(e, es)) == multiset(es) + multiset{e}
  {
    if !(es == [] || es[0].at <= e.at) {
      InsertElements(e, es[1..]);
      assert es == [es[0]] + es[1..];
    }
  }

  lemma InsertHas<V>(e: Entry<V>, es: Store<V>, x: Entry<V>)
    requires x in Insert(e, es)
    ensures x == e || x in es
  {
    InsertElements(e, es);
    assert x in multiset(Insert(e, es));
  }

  lemma InsertDescending<V>(e: Entry<V>, es: Store<V>)
    requires Descending(es)
    ensures Descending(Insert(e, es))
    ensures multiset(Insert(e, es)) == multiset(es) + multiset{e}
  {
    InsertElements(e, es);
    if es == [] || es[0].at <= e.at {
      AllBelow(e, es);
      DescendingCons(e, es);
    } else {
      TailBelow(es);
      InsertDescending(e, es[1..]);
      forall x | x in Insert(e, es[1..]) ensures x.at <= es[0].at {
        InsertHas(e, es[1..], x);
      }
      DescendingCons(es[0], Insert(e, es[1..]));
    }
  }

  lemma SortDescending<V>(es: Store<V>)
    ensures Descending(SortByAt(es))
    ensures multiset(SortByAt(es)) == multiset(es)
  {
    if es != [] {
      assert es == [es[0]] + es[1..];
      SortDescending(es[1..]);
      InsertDescending(es[0], SortByAt(es[1..]));
    }
  }

  /** What is written back is as many entries as fit, all of them from the store, and none
      older than an entry that was dropped. */
  lemma NewestKeepsNewest<V>(es: Store<V>, max: nat, dropped: Entry<V>, kept: Entry<V>)
    requires dropped in es && dropped !in Newest(es, max)
    requires kept in Newest(es, max)
    ensures |Newest(es, max)| == max
    ensures kept in es && dropped.at <= kept.at
  {
    SortDescending(es);
    var sorted := SortByAt(es);
    assert dropped in multiset(sorted) && kept in multiset(sorted);
    assert kept in multiset(es);
    assert sorted == sorted[..max] + sorted[max..];
    assert dropped in sorted[max..];
  }

  // ---- Storing one entry ----

  lemma {:induction false} FindIn<V>(es: Store<V>, e: Entry<V>)
    requires UniqueKeys(es) && e in es
    ensures Find(es, e.key) == Some(e)
  {
    if e != es[0] {
      assert e in es[1..];
      FindIn(es[1..], e);
    }
  }

  lemma {:induction false} PutHas<V>(es: Store<V>, e: Entry<V>, x: Entry<V>)
    requires UniqueKeys(es)
    ensures x in Put(es, e) <==> x == e || (x in es && x.key != e.key)
  {
    if es != [] {
      assert es == [es[0]] + es[1..];
      PutHas(es[1..], e, x);
      if es[0].key == e.key && x in es[1..] { FindIn(es[1..], x); }
    }
  }

  lemma {:induction false} PutSize<V>(es: Store<V>, e: Entry<V>)
    ensures |Put(es, e)| == if Find(es, e.key).Some? then |es| else |es| + 1
  {
    if es != [] && es[0].key != e.key { PutSize(es[1..], e); }
  }

  lemma {:induction false} RemoveSize<V>(es: Store<V>, key: string)
    ensures |Remove(es, key)| <= |es|
  {
    if es != [] && es[0].key != key { RemoveSize(es[1..], key); }
  }

  lemma NewestSize<V>(es: Store<V>, max: nat)
    ensures |SortByAt(es)| == |es|
    ensures |Newest(es, max)| == if |es| <= max then |es| else max
  {
    SortDescending(es);
    assert |multiset(SortByAt(es))| == |multiset(es)|;
  }

  lemma NotFullFind<V>(es: Store<V>, max: nat, key: string)
    requires UniqueKeys(es) && |es| <= max
    ensures Find(Newest(es, max), key) == Find(es, key)
  {
    NewestSize(es, max);
    SortFind(es, key);
  }

  /** The newest entry, and every entry of a store that is not full, is kept. */
  lemma NewestKeeps<V>(es: Store<V>, max: nat, e: Entry<V>)
    requires e in es && max > 0
    requires |es| <= max || forall x :: x in es && x != e ==> x.at < e.at
    ensures e in Newest(es, max)
  {
    SortDescending(es);
    assert e in multiset(SortByAt(es));
    NewestSize(es, max);
    if e !in Newest(es, max) {
      NewestKeepsNewest(es, max, e, Newest(es, max)[0]);
    }
  }

  /** There is room for an entry, or all the others are older. */
  ghost predicate Room<V>(es: Store<V>, max: nat, key: string, at: nat) {
    |es| < max || (|es| == max && Find(es, key).Some?) || forall x :: x in es && x.key != key ==> x.at < at
  }

  /** An entry that there is room for is found again. */
  lemma PutKept<V>(es: Store<V>, max: nat, e: Entry<V>)
    requires UniqueKeys(es) && 0 < max && Room(es, max, e.key, e.at)
    ensures Find(Newest(Put(es, e), max), e.key) == Some(e)
  {
    var put := Put(es, e);
    PutUnique(es, e);
    PutSize(es, e);
    PutHas(es, e, e);
    if |put| > max {
      forall x | x in put && x != e ensures x.at < e.at { PutHas(es, e, x); }
    }
    NewestKeeps(put, max, e);
    NewestFind(put, max, e.key);
    FindIn(Newest(put, max), e);
  }

  /** The other entries stay as they were, or are dropped when the store is full. */
  lemma PutElsewhere<V>(es: Store<V>, max: nat, e: Entry<V>, key: string)
    requires UniqueKeys(es) && key != e.key
    ensures var after := Find(Newest(Put(es, e), max), key);
            && (after == Find(es, key) || after == None)
            && (|es| < max || (|es| == max && Find(es, e.key).Some?) ==> after == Find(es, key))
  {
    PutUnique(es, e);
    PutFind(es, e, key);
    PutSize(es, e);
    NewestFind(Put(es, e), max, key);
    if |Put(es, e)| <= max { NotFullFind(Put(es, e), max, key); }
  }

  lemma PutRoom<V>(es: Store<V>, max: nat, e: Entry<V>)
    ensures |Newest(Put(es, e), max)| <= |es| + 1
  {
    PutSize(es, e);
    NewestSize(Put(es, e), max);
  }
}
