/** The metadata kept per model slug, and moving it along when models are renamed. */
module MetadataMap {
  import opened Text

  datatype Mapping = Mapping(previous: string, next: string)

  function Trimmed(m: Mapping): Mapping {
    Mapping(Trim(JavaScript, m.previous), Trim(JavaScript, m.next))
  }

  function TrimmedAll(list: seq<Mapping>): (r: seq<Mapping>)
    ensures |r| == |list|
  {
    if list == [] then [] else [Trimmed(list[0])] + TrimmedAll(list[1..])
  }

  /** Slugs that some mapping maps to themselves. */
  function Retained(list: seq<Mapping>): set<string> {
    set m | m in list && m.previous != "" && m.previous == m.next :: m.previous
  }

  predicate IsMove<V>(metadata: map<string, V>, m: Mapping) {
    m.previous != "" && m.next != "" && m.previous != m.next && m.previous in metadata
  }

  function Moves<V>(metadata: map<string, V>, list: seq<Mapping>): (moves: seq<Mapping>)
    ensures forall m :: m in moves <==> m in list && IsMove(metadata, m)
    ensures forall i :: 0 <= i < |moves| ==> IsMove(metadata, moves[i])
  {
    if list == [] then []
    else (if IsMove(metadata, list[0]) then [list[0]] else []) + Moves(metadata, list[1..])
  }

  /** The slugs whose old entries go: the targets, and the sources that are not kept as well. */
  function Cleared(moves: seq<Mapping>, retained: set<string>): set<string> {
    (set m | m in moves :: m.next) + (set m | m in moves && m.previous !in retained :: m.previous)
  }

  /** Writing the moved entries, in order, over what is left. */
  function Written<V>(metadata: map<string, V>, rest: map<string, V>, moves: seq<Mapping>): map<string, V>
    requires forall i :: 0 <= i < |moves| ==> moves[i].previous in metadata
  {
    if moves == [] then rest
    else
      var m := moves[|moves| - 1];
      Written(metadata, rest, moves[..|moves| - 1])[m.next := metadata[m.previous]]
  }

  /** `remapModelMetadataSlugs`, on the parsed map and the trimmed list. */
  function Remap<V>(metadata: map<string, V>, list: seq<Mapping>): map<string, V> {
    var moves := Moves(metadata, list);
    if moves == [] then metadata
    else Written(metadata, metadata - Cleared(moves, Retained(list)), moves)
  }

  lemma WrittenStep<V>(metadata: map<string, V>, rest: map<string, V>, moves: seq<Mapping>, i: nat)
    requires i < |moves| && forall j :: 0 <= j < |moves| ==> moves[j].previous in metadata
    ensures Written(metadata, rest, moves[..i + 1])
            == Written(metadata, rest, moves[..i])[moves[i].next := metadata[moves[i].previous]]
  {
    assert moves[..i + 1][..i] == moves[..i];
  }

  method RemapSlugs<V>(metadata: map<string, V>, mappings: seq<Mapping>) returns (next: map<string, V>)
    ensures next == Remap(metadata, TrimmedAll(mappings))
  {
    var list := TrimmedAll(mappings);
    var moves := Moves(metadata, list);
    if moves == [] { return metadata; }
    var rest := metadata - Cleared(moves, Retained(list));
    next := rest;
    for i := 0 to |moves|
      invariant next == Written(metadata, rest, moves[..i])
    {
      WrittenStep(metadata, rest, moves, i);
      next := next[moves[i].next := metadata[moves[i].previous]];
    }
    assert moves[..|moves|] == moves;
  }

  // ---- Renaming ----

  predicate IsRename(m: Mapping) {
    m.previous != "" && m.next != ""
  }

  /** No slug is given two new names. */
  ghost predicate Functional(list: seq<Mapping>) {
    forall m, n :: m in list && n in list && IsRename(m) && IsRename(n) && m.previous == n.previous ==> m.next == n.next
  }

  /** A mapping's old and new name, or a slug outside the list under its own name. */
  ghost predicate NamePair(list: seq<Mapping>, slugs: set<string>, m: Mapping) {
    || (m in list && IsRename(m))
    || (m.previous == m.next && m.previous in slugs && forall n :: n in list && IsRename(n) ==> n.previous != m.previous)
  }

  /** No two slugs end up under one name, counting the slugs outside the list. */
  ghost predicate Injective(list: seq<Mapping>, slugs: set<string>) {
    forall m, n :: NamePair(list, slugs, m) && NamePair(list, slugs, n) && m.next == n.next ==> m.previous == n.previous
  }

  lemma {:induction false} WrittenKeys<V>(metadata: map<string, V>, rest: map<string, V>, moves: seq<Mapping>, key: string)
    requires forall i :: 0 <= i < |moves| ==> moves[i].previous in metadata
    ensures var r := Written(metadata, rest, moves);
            && (key in r <==> key in rest || exists m :: m in moves && m.next == key)
            && (key in r ==> (exists m :: m in moves && m.next == key && r[key] == metadata[m.previous])
                             || (key in rest && r[key] == rest[key] && forall m :: m in moves ==> m.next != key))
  {
    if moves != [] {
      var init := moves[..|moves| - 1];
      assert moves == init + [moves[|moves| - 1]];
      WrittenKeys(metadata, rest, init, key);
      assert moves[|moves| - 1] in moves;
      assert forall m :: m in moves <==> m in init || m == moves[|moves| - 1];
    }
  }

  /** With new names that are given once and taken once, renaming relabels: each entry is found
      under its new name, and there is nothing else. Swaps, cycles and chains included. */
  lemma RemapRelabels<V>(metadata: map<string, V>, list: seq<Mapping>, key: string)
    requires Functional(list) && Injective(list, metadata.Keys)
    ensures var r := Remap(metadata, list);
            && (forall m :: NamePair(list, metadata.Keys, m) && m.previous in metadata
                            ==> m.next in r && r[m.next] == metadata[m.previous])
            && (key in r ==> exists m :: NamePair(list, metadata.Keys, m) && m.previous in metadata && m.next == key)
  {
    var r := Remap(metadata, list);
    var moves := Moves(metadata, list);
    var rest := metadata - Cleared(moves, Retained(list));
    forall m | NamePair(list, metadata.Keys, m) && m.previous in metadata
      ensures m.next in r && r[m.next] == metadata[m.previous]
    {
      EntryMoves(metadata, list, m);
    }
    if key in r {
      EntryComesFrom(metadata, list, key);
    }
  }

  lemma EntryMoves<V>(metadata: map<string, V>, list: seq<Mapping>, m: Mapping)
    requires Functional(list) && Injective(list, metadata.Keys)
    requires NamePair(list, metadata.Keys, m) && m.previous in metadata
    ensures m.next in Remap(metadata, list) && Remap(metadata, list)[m.next] == metadata[m.previous]
  {
    var moves := Moves(metadata, list);
    var rest := metadata - Cleared(moves, Retained(list));
    forall n | n in moves ensures NamePair(list, metadata.Keys, n) && (n.next == m.next ==> n.previous == m.previous) {}
    if moves != [] {
      WrittenKeys(metadata, rest, moves, m.next);
      if m.previous == m.next {
        assert m.previous !in Cleared(moves, Retained(list));
      } else {
        assert m in moves;
      }
    }
  }

  lemma EntryComesFrom<V>(metadata: map<string, V>, list: seq<Mapping>, key: string)
    requires Functional(list) && Injective(list, metadata.Keys) && key in Remap(metadata, list)
    ensures exists m :: NamePair(list, metadata.Keys, m) && m.previous in metadata && m.next == key
  {
    var moves := Moves(metadata, list);
    var rest := metadata - Cleared(moves, Retained(list));
    if moves != [] {
      WrittenKeys(metadata, rest, moves, key);
    }
    if m :| m in moves && m.next == key {
      assert NamePair(list, metadata.Keys, m);
    } else {
      assert NamePair(list, metadata.Keys, Mapping(key, key));
    }
  }

  // ---- Undoing a rename ----

  function Inverse(list: seq<Mapping>): (r: seq<Mapping>)
    ensures |r| == |list|
    ensures forall m :: m in r <==> Mapping(m.next, m.previous) in list
  {
    if list == [] then [] else [Mapping(list[0].next, list[0].previous)] + Inverse(list[1..])
  }

  lemma InverseFunctional(list: seq<Mapping>, slugs: set<string>)
    requires Injective(list, slugs)
    ensures Functional(Inverse(list))
  {
    forall m, n | m in Inverse(list) && n in Inverse(list) && IsRename(m) && IsRename(n) && m.previous == n.previous
      ensures m.next == n.next
    {
      assert NamePair(list, slugs, Mapping(m.next, m.previous)) && NamePair(list, slugs, Mapping(n.next, n.previous));
    }
  }

  /** A slug the inverse list does not mention kept its own name. */
  lemma InverseOutsider<V>(metadata: map<string, V>, list: seq<Mapping>, m: Mapping)
    requires Functional(list) && Injective(list, metadata.Keys)
    requires NamePair(Inverse(list), Remap(metadata, list).Keys, m) && !(m in Inverse(list) && IsRename(m))
    ensures m.previous in metadata && NamePair(list, metadata.Keys, m)
  {
    EntryComesFrom(metadata, list, m.previous);
    var q :| NamePair(list, metadata.Keys, q) && q.previous in metadata && q.next == m.previous;
    var back := Mapping(q.next, q.previous);
    assert !(back in Inverse(list) && IsRename(back));
    assert q == m;
  }

  lemma InverseInjective<V>(metadata: map<string, V>, list: seq<Mapping>)
    requires Functional(list) && Injective(list, metadata.Keys)
    ensures Injective(Inverse(list), Remap(metadata, list).Keys)
  {
    var inverse, slugs := Inverse(list), Remap(metadata, list).Keys;
    forall m, n | NamePair(inverse, slugs, m) && NamePair(inverse, slugs, n) && m.next == n.next
      ensures m.previous == n.previous
    {
      if !(m in inverse && IsRename(m)) {
        InverseOutsider(metadata, list, m);
      }
      if !(n in inverse && IsRename(n)) {
        InverseOutsider(metadata, list, n);
      }
    }
  }

  lemma EntryReturns<V>(metadata: map<string, V>, list: seq<Mapping>, key: string)
    requires Functional(list) && Injective(list, metadata.Keys) && key in metadata
    ensures var back := Remap(Remap(metadata, list), Inverse(list)); key in back && back[key] == metadata[key]
  {
    var r, inverse := Remap(metadata, list), Inverse(list);
    InverseFunctional(list, metadata.Keys);
    InverseInjective(metadata, list);
    if m :| m in list && IsRename(m) && m.previous == key {
      EntryMoves(metadata, list, m);
      EntryMoves(r, inverse, Mapping(m.next, key));
    } else {
      var m := Mapping(key, key);
      assert NamePair(list, metadata.Keys, m);
      EntryMoves(metadata, list, m);
      forall n | n in inverse && IsRename(n) ensures n.previous != key {
        assert NamePair(list, metadata.Keys, Mapping(n.next, n.previous));
      }
      EntryMoves(r, inverse, m);
    }
  }

  lemma NothingElseReturns<V>(metadata: map<string, V>, list: seq<Mapping>, key: string)
    requires Functional(list) && Injective(list, metadata.Keys)
    requires key in Remap(Remap(metadata, list), Inverse(list))
    ensures key in metadata
  {
    var r, inverse := Remap(metadata, list), Inverse(list);
    InverseFunctional(list, metadata.Keys);
    InverseInjective(metadata, list);
    EntryComesFrom(r, inverse, key);
    var m :| NamePair(inverse, r.Keys, m) && m.previous in r && m.next == key;
    if m in inverse && IsRename(m) {
      EntryComesFrom(metadata, list, m.previous);
      assert NamePair(list, metadata.Keys, Mapping(key, m.previous));
    } else {
      InverseOutsider(metadata, list, m);
    }
  }

  lemma SameEntries<V>(a: map<string, V>, b: map<string, V>)
    requires forall key :: key in b ==> key in a && a[key] == b[key]
    requires forall key :: key in a ==> key in b
    ensures a == b
  {
  }

  lemma ReturnsTo<V>(metadata: map<string, V>, list: seq<Mapping>, back: map<string, V>)
    requires Functional(list) && Injective(list, metadata.Keys) && back == Remap(Remap(metadata, list), Inverse(list))
    ensures forall key :: key in metadata ==> key in back && back[key] == metadata[key]
  {
    forall key | key in metadata ensures key in back && back[key] == metadata[key] {
      EntryReturns(metadata, list, key);
    }
  }

  lemma ReturnsOnly<V>(metadata: map<string, V>, list: seq<Mapping>, back: map<string, V>)
    requires Functional(list) && Injective(list, metadata.Keys) && back == Remap(Remap(metadata, list), Inverse(list))
    ensures forall key :: key in back ==> key in metadata
  {
    forall key | key in back ensures key in metadata {
      NothingElseReturns(metadata, list, key);
    }
  }

  /** Renaming and renaming back restores the map: no entry is lost or merged. */
  lemma RemapInverse<V>(metadata: map<string, V>, list: seq<Mapping>)
    requires Functional(list) && Injective(list, metadata.Keys)
    ensures Remap(Remap(metadata, list), Inverse(list)) == metadata
  {
    var back := Remap(Remap(metadata, list), Inverse(list));
    ReturnsTo(metadata, list, back);
    ReturnsOnly(metadata, list, back);
    SameEntries(back, metadata);
  }

  // ---- Any list at all ----

  /** The mapping at `i` moves an entry that is there to another slug. */
  predicate MovesAt<V>(metadata: map<string, V>, list: seq<Mapping>, i: nat)
    requires i < |list|
  {
    list[i].previous != "" && list[i].next != "" && list[i].previous != list[i].next && list[i].previous in metadata
  }

  ghost predicate LastMoveTo<V>(metadata: map<string, V>, list: seq<Mapping>, i: nat, key: string)
    requires i < |list|
  {
    && MovesAt(metadata, list, i) && list[i].next == key
    && forall j :: i < j < |list| && MovesAt(metadata, list, j) ==> list[j].next != key
  }

  lemma {:induction false} WrittenFirst<V>(metadata: map<string, V>, rest: map<string, V>, m: Mapping, moves: seq<Mapping>)
    requires m.previous in metadata && forall i :: 0 <= i < |moves| ==> moves[i].previous in metadata
    ensures Written(metadata, rest, [m] + moves) == Written(metadata, rest[m.next := metadata[m.previous]], moves)
  {
    if moves != [] {
      var n := |moves| - 1;
      WrittenFirst(metadata, rest, m, moves[..n]);
      assert ([m] + moves)[..n + 1] == [m] + moves[..n];
    } else {
      assert ([m] + moves)[..0] == [];
    }
  }

  /** `r` has the entry moved last to the slug, or else what was there. */
  ghost predicate HasLast<V>(metadata: map<string, V>, rest: map<string, V>, list: seq<Mapping>, key: string, r: map<string, V>) {
    && (forall i :: 0 <= i < |list| && LastMoveTo(metadata, list, i, key) ==> key in r && r[key] == metadata[list[i].previous])
    && ((forall i :: 0 <= i < |list| && MovesAt(metadata, list, i) ==> list[i].next != key)
        ==> (key in r <==> key in rest) && (key in r ==> r[key] == rest[key]))
  }

  lemma FirstMoved<V>(metadata: map<string, V>, rest: map<string, V>, first: map<string, V>, list: seq<Mapping>, key: string, r: map<string, V>)
    requires list != [] && HasLast(metadata, first, list[1..], key, r)
    requires first == if IsMove(metadata, list[0]) then rest[list[0].next := metadata[list[0].previous]] else rest
    ensures HasLast(metadata, rest, list, key, r)
  {
    MovesOfTail(metadata, list, key);
    forall i | 0 <= i < |list| && LastMoveTo(metadata, list, i, key) ensures key in r && r[key] == metadata[list[i].previous] {
      if i > 0 { assert LastMoveTo(metadata, list[1..], i - 1, key); }
    }
  }

  lemma {:induction false} LastMoveWins<V>(metadata: map<string, V>, rest: map<string, V>, list: seq<Mapping>, key: string)
    ensures HasLast(metadata, rest, list, key, Written(metadata, rest, Moves(metadata, list)))
    decreases |list|
  {
    if list != [] {
      var tail := list[1..];
      var first := if IsMove(metadata, list[0]) then rest[list[0].next := metadata[list[0].previous]] else rest;
      LastMoveWins(metadata, first, tail, key);
      MovesCons(metadata, rest, first, list);
      FirstMoved(metadata, rest, first, list, key, Written(metadata, first, Moves(metadata, tail)));
    }
  }

  lemma MovesCons<V>(metadata: map<string, V>, rest: map<string, V>, first: map<string, V>, list: seq<Mapping>)
    requires list != []
    requires first == if IsMove(metadata, list[0]) then rest[list[0].next := metadata[list[0].previous]] else rest
    ensures Written(metadata, rest, Moves(metadata, list)) == Written(metadata, first, Moves(metadata, list[1..]))
  {
    if IsMove(metadata, list[0]) {
      WrittenFirst(metadata, rest, list[0], Moves(metadata, list[1..]));
    } else {
      assert [] + Moves(metadata, list[1..]) == Moves(metadata, list[1..]);
    }
  }

  lemma MovesOfTail<V>(metadata: map<string, V>, list: seq<Mapping>, key: string)
    requires list != []
    ensures forall j :: 0 <= j < |list| - 1 ==> (MovesAt(metadata, list[1..], j) <==> MovesAt(metadata, list, j + 1))
    ensures forall i :: 1 <= i < |list| && LastMoveTo(metadata, list, i, key) ==> LastMoveTo(metadata, list[1..], i - 1, key)
    ensures (forall i :: 0 <= i < |list| && MovesAt(metadata, list, i) ==> list[i].next != key)
            ==> forall j :: 0 <= j < |list| - 1 && MovesAt(metadata, list[1..], j) ==> list[1..][j].next != key
    ensures LastMoveTo(metadata, list, 0, key)
            ==> forall j :: 0 <= j < |list| - 1 && MovesAt(metadata, list[1..], j) ==> list[1..][j].next != key
  {
    forall j | 0 <= j < |list| - 1 ensures MovesAt(metadata, list[1..], j) <==> MovesAt(metadata, list, j + 1) {
      assert list[1..][j] == list[j + 1];
    }
  }

  /** Renaming by any list: a slug that entries move to has the one moved last; any other slug keeps its entry,
      unless the entry moves away and no mapping says that it stays as well. */
  lemma RemapIs<V>(metadata: map<string, V>, list: seq<Mapping>, key: string)
    ensures var r := Remap(metadata, list);
            && (forall i :: 0 <= i < |list| && LastMoveTo(metadata, list, i, key) ==> key in r && r[key] == metadata[list[i].previous])
            && ((forall i :: 0 <= i < |list| && MovesAt(metadata, list, i) ==> list[i].next != key)
                ==> (key in r <==> key in metadata && (Leaves(metadata, list, key) ==> StaysAsWell(list, key)))
                    && (key in r ==> r[key] == metadata[key]))
  {
    var moves, retained := Moves(metadata, list), Retained(list);
    var rest := metadata - Cleared(moves, retained);
    LastMoveWins(metadata, rest, list, key);
    if forall i :: 0 <= i < |list| && MovesAt(metadata, list, i) ==> list[i].next != key { ClearedIs(metadata, list, key); }
    if moves == [] { NoMoves(metadata, list); }
  }

  ghost predicate Leaves<V>(metadata: map<string, V>, list: seq<Mapping>, key: string) {
    exists i :: 0 <= i < |list| && MovesAt(metadata, list, i) && list[i].previous == key
  }

  ghost predicate StaysAsWell(list: seq<Mapping>, key: string) {
    key != "" && exists i :: 0 <= i < |list| && list[i].previous == list[i].next == key
  }

  lemma NoMoves<V>(metadata: map<string, V>, list: seq<Mapping>)
    requires Moves(metadata, list) == []
    ensures forall i :: 0 <= i < |list| ==> !MovesAt(metadata, list, i)
  {
    forall i | 0 <= i < |list| ensures !MovesAt(metadata, list, i) {
      assert list[i] in list;
      assert list[i] !in Moves(metadata, list);
    }
  }

  lemma ClearedIs<V>(metadata: map<string, V>, list: seq<Mapping>, key: string)
    requires forall i :: 0 <= i < |list| && MovesAt(metadata, list, i) ==> list[i].next != key
    ensures key in Cleared(Moves(metadata, list), Retained(list)) <==> Leaves(metadata, list, key) && !StaysAsWell(list, key)
  {
    var moves, retained := Moves(metadata, list), Retained(list);
    if m :| m in moves && m.previous == key {
      var i :| 0 <= i < |list| && list[i] == m;
      assert MovesAt(metadata, list, i);
    }
    if i :| 0 <= i < |list| && MovesAt(metadata, list, i) && list[i].previous == key {
      assert list[i] in moves;
    }
    forall m | m in moves ensures m.next != key {
      var i :| 0 <= i < |list| && list[i] == m;
      assert MovesAt(metadata, list, i);
    }
    if key in retained {
      var m :| m in list && m.previous != "" && m.previous == m.next == key;
      var i :| 0 <= i < |list| && list[i] == m;
    }
    if i :| 0 <= i < |list| && key != "" && list[i].previous == list[i].next == key {
      assert list[i] in list;
    }
  }
}
