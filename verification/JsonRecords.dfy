/** JSON objects as ordered fields, with the fields the form manages put first. */
module JsonRecords {
  import opened Wrappers

  /** A JSON value; `Other` stands for fractions, arrays and objects, which are carried along. */
  datatype Json = Null | Bool(b: bool) | Integer(n: int) | Str(s: string) | Other(id: nat)

  datatype Field = Field(key: string, value: Json)

  /** An object's own fields in order. */
  type Record = seq<Field>

  const SLUG := "slug"
  const CONTEXT_WINDOW := "context_window"
  const TOKEN_LIMIT := "auto_compact_token_limit"

  predicate Managed(key: string) {
    key == SLUG || key == CONTEXT_WINDOW || key == TOKEN_LIMIT
  }

  function Get(fs: Record, key: string): Option<Json> {
    if fs == [] then None else if fs[0].key == key then Some(fs[0].value) else Get(fs[1..], key)
  }

  /** Assigning a property: in place if it is there, at the end if not. */
  function Put(fs: Record, key: string, value: Json): Record {
    if fs == [] then [Field(key, value)]
    else if fs[0].key == key then [Field(key, value)] + fs[1..]
    else [fs[0]] + Put(fs[1..], key, value)
  }

  /** `filteredMetadata`. */
  function Unmanaged(fs: Record): Record {
    if fs == [] then [] else if Managed(fs[0].key) then Unmanaged(fs[1..]) else [fs[0]] + Unmanaged(fs[1..])
  }

  function One(fs: Record, key: string): Record {
    match Get(fs, key)
    case Some(v) => [Field(key, v)]
    case None => []
  }

  function ManagedFields(fs: Record): Record {
    One(fs, SLUG) + One(fs, CONTEXT_WINDOW) + One(fs, TOKEN_LIMIT)
  }

  /** The managed fields first, in their order. */
  function Reordered(fs: Record): Record {
    ManagedFields(fs) + Unmanaged(fs)
  }

  /** A parsed object has each key once. */
  ghost predicate UniqueFields(fs: Record) {
    fs == [] || (Get(fs[1..], fs[0].key).None? && UniqueFields(fs[1..]))
  }

  /** A model object, whose fields are written in place. */
  class ModelObject {
    var fields: Record

    constructor (fields: Record)
      ensures this.fields == fields
    {
      this.fields := fields;
    }

    method Assign(key: string, value: Json)
      modifies this
      ensures fields == Put(old(fields), key, value)
    {
      fields := Put(fields, key, value);
    }

    /** `reorderManagedModelFields`. */
    method Reorder()
      requires UniqueFields(fields)
      modifies this
      ensures fields == Reordered(old(fields))
    {
      var model, ordered: Record := fields, [];
      var keys := [SLUG, CONTEXT_WINDOW, TOKEN_LIMIT];
      for k := 0 to 3
        invariant ordered == (if k > 0 then One(model, SLUG) else []) + (if k > 1 then One(model, CONTEXT_WINDOW) else [])
                             + (if k > 2 then One(model, TOKEN_LIMIT) else [])
      {
        var value := Get(model, keys[k]);
        if value.Some? { ordered := ordered + [Field(keys[k], value.value)]; }
      }
      for i := 0 to |model|
        invariant ordered == ManagedFields(model) + Unmanaged(model[..i])
      {
        OrderedHas(model, i);
        UnmanagedSnoc(model, i);
        if Get(ordered, model[i].key).None? { ordered := ordered + [model[i]]; }
      }
      assert model[..|model|] == model;
      fields := ordered;
    }
  }

  lemma {:induction false} GetAppend(a: Record, b: Record, key: string)
    ensures Get(a + b, key) == if Get(a, key).Some? then Get(a, key) else Get(b, key)
  {
    if a == [] {
      assert a + b == b;
    } else {
      assert (a + b)[1..] == a[1..] + b;
      GetAppend(a[1..], b, key);
    }
  }

  lemma {:induction false} NotBefore(fs: Record, i: nat)
    requires i < |fs| && UniqueFields(fs)
    ensures Get(fs[..i], fs[i].key).None?
    ensures Get(fs, fs[i].key).Some?
  {
    if i > 0 {
      NotBefore(fs[1..], i - 1);
      assert fs[..i][1..] == fs[1..][..i - 1];
    }
  }

  lemma {:induction false} GetUnmanaged(fs: Record, key: string)
    ensures Get(Unmanaged(fs), key) == if Managed(key) then None else Get(fs, key)
  {
    if fs != [] {
      GetUnmanaged(fs[1..], key);
      assert ([fs[0]] + Unmanaged(fs[1..]))[1..] == Unmanaged(fs[1..]);
    }
  }

  lemma GetOne(fs: Record, k: string, key: string)
    ensures Get(One(fs, k), key) == if key == k then Get(fs, k) else None
  {
  }

  lemma GetManaged(fs: Record, key: string)
    ensures Get(ManagedFields(fs), key) == if Managed(key) then Get(fs, key) else None
  {
    GetAppend(One(fs, SLUG) + One(fs, CONTEXT_WINDOW), One(fs, TOKEN_LIMIT), key);
    GetAppend(One(fs, SLUG), One(fs, CONTEXT_WINDOW), key);
    GetOne(fs, SLUG, key);
    GetOne(fs, CONTEXT_WINDOW, key);
    GetOne(fs, TOKEN_LIMIT, key);
  }

  /** Reordering changes the order of the fields and nothing else. */
  lemma ReorderedKeeps(fs: Record, key: string)
    ensures Get(Reordered(fs), key) == Get(fs, key)
  {
    GetAppend(ManagedFields(fs), Unmanaged(fs), key);
    GetManaged(fs, key);
    GetUnmanaged(fs, key);
  }

  lemma {:induction false} UnmanagedAppend(a: Record, b: Record)
    ensures Unmanaged(a + b) == Unmanaged(a) + Unmanaged(b)
  {
    if a == [] {
      assert a + b == b;
    } else {
      assert (a + b)[1..] == a[1..] + b;
      UnmanagedAppend(a[1..], b);
    }
  }

  lemma UnmanagedSnoc(fs: Record, i: nat)
    requires i < |fs|
    ensures Unmanaged(fs[..i + 1]) == Unmanaged(fs[..i]) + (if Managed(fs[i].key) then [] else [fs[i]])
  {
    assert fs[..i + 1] == fs[..i] + [fs[i]];
    UnmanagedAppend(fs[..i], [fs[i]]);
    assert [fs[i]][1..] == [];
  }

  /** In the second loop of the reordering, a field is there already exactly if it is managed. */
  lemma OrderedHas(fs: Record, i: nat)
    requires i < |fs| && UniqueFields(fs)
    ensures Get(ManagedFields(fs) + Unmanaged(fs[..i]), fs[i].key).Some? <==> Managed(fs[i].key)
  {
    var key := fs[i].key;
    GetAppend(ManagedFields(fs), Unmanaged(fs[..i]), key);
    GetManaged(fs, key);
    GetUnmanaged(fs[..i], key);
    NotBefore(fs, i);
  }

  lemma {:induction false} UnmanagedTwice(fs: Record)
    ensures Unmanaged(Unmanaged(fs)) == Unmanaged(fs)
  {
    if fs != [] {
      UnmanagedTwice(fs[1..]);
      assert ([fs[0]] + Unmanaged(fs[1..]))[1..] == Unmanaged(fs[1..]);
    }
  }

  lemma UnmanagedReordered(fs: Record)
    ensures Unmanaged(Reordered(fs)) == Unmanaged(fs)
  {
    var a, b, c := One(fs, SLUG), One(fs, CONTEXT_WINDOW), One(fs, TOKEN_LIMIT);
    UnmanagedAppend(a + b + c, Unmanaged(fs));
    UnmanagedAppend(a + b, c);
    UnmanagedAppend(a, b);
    UnmanagedTwice(fs);
  }

  lemma {:induction false} GetPut(fs: Record, key: string, value: Json, k: string)
    ensures Get(Put(fs, key, value), k) == if k == key then Some(value) else Get(fs, k)
  {
    if fs != [] {
      GetPut(fs[1..], key, value, k);
      var tail := Put(fs[1..], key, value);
      assert ([fs[0]] + tail)[1..] == tail;
      assert ([Field(key, value)] + fs[1..])[1..] == fs[1..];
    }
  }

  lemma {:induction false} UnmanagedPut(fs: Record, key: string, value: Json)
    requires Managed(key)
    ensures Unmanaged(Put(fs, key, value)) == Unmanaged(fs)
  {
    if fs == [] {
      assert [Field(key, value)][1..] == [];
    } else {
      UnmanagedPut(fs[1..], key, value);
      var tail := Put(fs[1..], key, value);
      assert ([fs[0]] + tail)[1..] == tail;
      assert ([Field(key, value)] + fs[1..])[1..] == fs[1..];
    }
  }

  // ---- Unique keys are kept ----

  lemma {:induction false} PutUnique(fs: Record, key: string, value: Json)
    requires UniqueFields(fs)
    ensures UniqueFields(Put(fs, key, value))
  {
    if fs == [] {
      assert [Field(key, value)][1..] == [];
    } else {
      PutUnique(fs[1..], key, value);
      var tail := Put(fs[1..], key, value);
      GetPut(fs[1..], key, value, fs[0].key);
      assert ([fs[0]] + tail)[1..] == tail;
      assert ([Field(key, value)] + fs[1..])[1..] == fs[1..];
    }
  }

  lemma {:induction false} AppendUnique(a: Record, b: Record)
    requires UniqueFields(a) && UniqueFields(b) && forall key :: Get(a, key).None? || Get(b, key).None?
    ensures UniqueFields(a + b)
  {
    if a == [] {
      assert a + b == b;
    } else {
      assert (a + b)[1..] == a[1..] + b;
      GetAppend(a[1..], b, a[0].key);
      assert Get(a, a[0].key).Some?;
      forall key ensures Get(a[1..], key).None? || Get(b, key).None? {
        if key != a[0].key { assert Get(a, key) == Get(a[1..], key); }
      }
      AppendUnique(a[1..], b);
    }
  }

  lemma {:induction false} UnmanagedUnique(fs: Record)
    requires UniqueFields(fs)
    ensures UniqueFields(Unmanaged(fs))
  {
    if fs != [] {
      UnmanagedUnique(fs[1..]);
      GetUnmanaged(fs[1..], fs[0].key);
      assert ([fs[0]] + Unmanaged(fs[1..]))[1..] == Unmanaged(fs[1..]);
    }
  }

  lemma ManagedUnique(fs: Record)
    ensures UniqueFields(ManagedFields(fs))
  {
    var a, b, c := One(fs, SLUG), One(fs, CONTEXT_WINDOW), One(fs, TOKEN_LIMIT);
    AppendUnique(a, b);
    forall key ensures Get(a + b, key).None? || Get(c, key).None? { GetAppend(a, b, key); }
    AppendUnique(a + b, c);
  }

  lemma ReorderedUnique(fs: Record)
    requires UniqueFields(fs)
    ensures UniqueFields(Reordered(fs))
  {
    ManagedUnique(fs);
    UnmanagedUnique(fs);
    forall key ensures Get(ManagedFields(fs), key).None? || Get(Unmanaged(fs), key).None? {
      GetManaged(fs, key);
      GetUnmanaged(fs, key);
    }
    AppendUnique(ManagedFields(fs), Unmanaged(fs));
  }
}
