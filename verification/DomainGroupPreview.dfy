/** The materialisation preview: bindings joined with entries, merged by (group, match type, value), conflicts set aside. */
module DomainGroupPreview {
  import opened Strings
  import opened Options
  import opened Sequences
  import opened DomainGroupModel
  import opened DomainGroupEffects
  import opened DomainGroupCommit

  datatype Binding = Binding(domainGroup: string, blockingGroup: string, action: Action)

  /** Stored entries are normalised, so an entry's value is its normalised value. */
  datatype Entry = Entry(matchType: MatchType, value: string)

  /** Bindings in the order of the preview query. */
  datatype Library = Library(bindings: seq<Binding>, entries: map<string, seq<Entry>>) {
    function EntriesOf(id: string): seq<Entry> {
      if id in entries then entries[id] else []
    }
  }

  /** One row of the join. */
  datatype Row = Row(blockingGroup: string, action: Action, matchType: MatchType, value: string)

  datatype Key = Key(name: string, matchType: MatchType, value: string)

  function KeyOf(r: Row): Key {
    Key(Lower(r.blockingGroup), r.matchType, r.value)
  }

  function BindingRows(b: Binding, entries: seq<Entry>): (r: seq<Row>)
    ensures |r| == |entries|
    ensures forall i :: 0 <= i < |r| ==> r[i] == Row(b.blockingGroup, b.action, entries[i].matchType, entries[i].value)
  {
    seq(|entries|, i requires 0 <= i < |entries| =>
      Row(b.blockingGroup, b.action, entries[i].matchType, entries[i].value))
  }

  function JoinRows(lib: Library, bindings: seq<Binding>): seq<Row> {
    if bindings == [] then []
    else
      var last := bindings[|bindings| - 1];
      JoinRows(lib, bindings[..|bindings| - 1]) + BindingRows(last, lib.EntriesOf(last.domainGroup))
  }

  function Rows(lib: Library): seq<Row> {
    JoinRows(lib, lib.bindings)
  }

  function Owned(lib: Library): (r: seq<Pair>)
    ensures |r| == |lib.bindings|
    ensures forall i :: 0 <= i < |r| ==> r[i] == Pair(Lower(lib.bindings[i].blockingGroup), lib.bindings[i].action)
  {
    seq(|lib.bindings|, i requires 0 <= i < |lib.bindings| =>
      Pair(Lower(lib.bindings[i].blockingGroup), lib.bindings[i].action))
  }

  // ---- merging rows ----------------------------------------------------------------------------

  /** The keys of `byKey` in insertion order. */
  function KeysOf(rows: seq<Row>): seq<Key> {
    if rows == [] then []
    else
      var keys, k := KeysOf(rows[..|rows| - 1]), KeyOf(rows[|rows| - 1]);
      if k in keys then keys else keys + [k]
  }

  function ActionsOf(rows: seq<Row>, k: Key): set<Action> {
    if rows == [] then {}
    else
      var last := rows[|rows| - 1];
      ActionsOf(rows[..|rows| - 1], k) + (if KeyOf(last) == k then {last.action} else {})
  }

  /** The spelling of the group name in the first row of a key. */
  function NameOf(rows: seq<Row>, k: Key): string {
    if rows == [] then k.name
    else if KeyOf(rows[0]) == k then rows[0].blockingGroup
    else NameOf(rows[1..], k)
  }

  predicate InConflict(actions: set<Action>) {
    |actions| > 1
  }

  function Conflicts(rows: seq<Row>, keys: seq<Key>): seq<Key> {
    if |keys| == 0 then []
    else
      var last := keys[|keys| - 1];
      Conflicts(rows, keys[..|keys| - 1]) + (if InConflict(ActionsOf(rows, last)) then [last] else [])
  }

  /** `bucket[...].add(value)` on a JavaScript Set. */
  function AddTo(list: seq<string>, value: string): seq<string> {
    if value in list then list else list + [value]
  }

  function AddValue(g: Group, a: Action, m: MatchType, value: string): Group {
    match m
    case Exact => g.WithLists(a, AddTo(g.List(a, Exact), value), g.List(a, Regex))
    case Regex => g.WithLists(a, g.List(a, Exact), AddTo(g.List(a, Regex), value))
  }

  function AddToBucket(buckets: seq<Group>, name: string, k: Key, a: Action): seq<Group> {
    var i := IndexOf(buckets, k.name);
    if i < 0 then buckets + [AddValue(EmptyGroup(name), a, k.matchType, k.value)]
    else buckets[i := AddValue(buckets[i], a, k.matchType, k.value)]
  }

  function BucketsFor(rows: seq<Row>, keys: seq<Key>): seq<Group> {
    if |keys| == 0 then []
    else
      var buckets, last := BucketsFor(rows, keys[..|keys| - 1]), keys[|keys| - 1];
      var actions := ActionsOf(rows, last);
      if InConflict(actions) then buckets
      else AddToBucket(buckets, NameOf(rows, last), last, if Allow in actions then Allow else Block)
  }

  function Buckets(rows: seq<Row>): seq<Group> {
    BucketsFor(rows, KeysOf(rows))
  }

  // ---- what the merge means ----------------------------------------------------------------------

  ghost predicate HasRow(rows: seq<Row>, k: Key, a: Action) {
    exists r :: r in rows && KeyOf(r) == k && r.action == a
  }

  lemma {:induction false} MergeIff(rows: seq<Row>, k: Key, a: Action)
    ensures a in ActionsOf(rows, k) <==> HasRow(rows, k, a)
    ensures k in KeysOf(rows) <==> HasRow(rows, k, Allow) || HasRow(rows, k, Block)
  {
    if rows != [] {
      var n := |rows| - 1;
      var init, last := rows[..n], rows[n];
      MergeIff(init, k, a);
      assert rows == init + [last];
      if HasRow(init, k, Allow) || HasRow(init, k, Block) || KeyOf(last) == k {
        assert last in rows;
        assert HasRow(rows, k, Allow) || HasRow(rows, k, Block) by {
          if KeyOf(last) == k {
            assert HasRow(rows, k, last.action);
          }
        }
      }
    }
  }

  lemma ConflictIffBoth(actions: set<Action>)
    ensures InConflict(actions) <==> Allow in actions && Block in actions
  {
    if Allow in actions && Block in actions {
      assert {Allow, Block} <= actions;
      SubsetSize({Allow, Block}, actions);
      assert |{Allow, Block}| == 2;
    } else {
      var only := if Allow in actions then Allow else Block;
      forall a | a in actions ensures a in {only} {
        assert a == Allow || a == Block;
      }
      SubsetSize(actions, {only});
    }
  }

  /** Preview conflicts exist exactly when two rows agree on group, match type and value but not on the action. */
  lemma {:induction false} ConflictsAre(rows: seq<Row>, keys: seq<Key>)
    ensures forall k :: k in Conflicts(rows, keys) <==> k in keys && HasRow(rows, k, Allow) && HasRow(rows, k, Block)
  {
    if keys != [] {
      var n := |keys| - 1;
      ConflictsAre(rows, keys[..n]);
      assert keys == keys[..n] + [keys[n]];
      MergeIff(rows, keys[n], Allow);
      MergeIff(rows, keys[n], Block);
      ConflictIffBoth(ActionsOf(rows, keys[n]));
    }
  }

  lemma {:induction false} KeysDistinct(rows: seq<Row>)
    ensures NoDuplicates(KeysOf(rows))
  {
    if rows != [] {
      KeysDistinct(rows[..|rows| - 1]);
    }
  }

  lemma {:induction false} ConflictsDistinct(rows: seq<Row>, keys: seq<Key>)
    requires NoDuplicates(keys)
    ensures NoDuplicates(Conflicts(rows, keys))
  {
    if keys != [] {
      var n := |keys| - 1;
      ConflictsDistinct(rows, keys[..n]);
      ConflictsAre(rows, keys[..n]);
      assert keys[n] !in keys[..n];
    }
  }

  /** The preview lists exactly the keys with rows of both actions as conflicts, each once. */
  lemma ConflictsListed(rows: seq<Row>)
    ensures NoDuplicates(Conflicts(rows, KeysOf(rows)))
    ensures forall k :: k in Conflicts(rows, KeysOf(rows)) <==> HasRow(rows, k, Allow) && HasRow(rows, k, Block)
  {
    KeysDistinct(rows);
    ConflictsDistinct(rows, KeysOf(rows));
    ConflictsAre(rows, KeysOf(rows));
    forall k ensures k in KeysOf(rows) <==> HasRow(rows, k, Allow) || HasRow(rows, k, Block) {
      MergeIff(rows, k, Allow);
    }
  }

  lemma {:induction false} NameHasKey(rows: seq<Row>, k: Key)
    requires exists r :: r in rows && KeyOf(r) == k
    ensures Lower(NameOf(rows, k)) == k.name
  {
    if KeyOf(rows[0]) != k {
      var r :| r in rows && KeyOf(r) == k;
      assert r in rows[1..];
      NameHasKey(rows[1..], k);
    }
  }

  lemma {:induction false} KeyHasRow(rows: seq<Row>, k: Key)
    requires k in KeysOf(rows)
    ensures exists r :: r in rows && KeyOf(r) == k
    ensures Lower(NameOf(rows, k)) == k.name
  {
    MergeIff(rows, k, Allow);
    if HasRow(rows, k, Allow) {
    } else {
      assert HasRow(rows, k, Block);
    }
    NameHasKey(rows, k);
  }

  // ---- the buckets -----------------------------------------------------------------------------

  lemma ReplacedBucket(buckets: seq<Group>, i: nat, g: Group, key: string)
    requires i < |buckets| && IndexOf(buckets, Lower(g.name)) == i
    ensures Find(buckets[i := g], key) == if key == Lower(g.name) then Some(g) else Find(buckets, key)
  {
    IndexOfUpdate(buckets, i, g, key);
  }

  lemma NewBucket(buckets: seq<Group>, g: Group, key: string)
    ensures Find(buckets + [g], key) == if key == Lower(g.name) then Some(g) else Find(buckets, key)
  {
    IndexOfAppend(buckets, g, key);
  }

  lemma AddValueName(g: Group, a: Action, m: MatchType, value: string)
    ensures AddValue(g, a, m, value).name == g.name
  {
  }

  lemma BucketsAfterAdd(buckets: seq<Group>, name: string, k: Key, a: Action, key: string)
    requires Lower(name) == k.name
    ensures Find(AddToBucket(buckets, name, k, a), key) ==
            if key == k.name then
              Some(AddValue(if Find(buckets, key).Some? then Find(buckets, key).value else EmptyGroup(name),
                            a, k.matchType, k.value))
            else Find(buckets, key)
  {
    var i := IndexOf(buckets, k.name);
    var g := if i < 0 then EmptyGroup(name) else buckets[i];
    AddValueName(g, a, k.matchType, k.value);
    if i < 0 {
      NewBucket(buckets, AddValue(g, a, k.matchType, k.value), key);
    } else {
      ReplacedBucket(buckets, i, AddValue(g, a, k.matchType, k.value), key);
    }
  }

  lemma AddedList(buckets: seq<Group>, name: string, k: Key, a: Action, key: string, act: Action, m: MatchType)
    requires Lower(name) == k.name
    ensures Materialized(AddToBucket(buckets, name, k, a), key, act, m) ==
            if key == k.name && act == a && m == k.matchType then AddTo(Materialized(buckets, key, act, m), k.value)
            else Materialized(buckets, key, act, m)
  {
    BucketsAfterAdd(buckets, name, k, a, key);
  }

  /** `k` is among `keys`, without conflict, with action `a`. */
  ghost predicate Contributes(rows: seq<Row>, keys: seq<Key>, k: Key, a: Action) {
    k in keys && ActionsOf(rows, k) == {a}
  }

  lemma SingleAction(actions: set<Action>)
    requires !InConflict(actions) && actions != {}
    ensures actions == {if Allow in actions then Allow else Block}
  {
    ConflictIffBoth(actions);
    var a :| a in actions;
    forall x | x in actions ensures x == (if Allow in actions then Allow else Block) {
    }
  }

  lemma {:induction false} BucketLists(rows: seq<Row>, keys: seq<Key>, key: string, a: Action, m: MatchType)
    requires keys <= KeysOf(rows)
    ensures forall v :: v in Materialized(BucketsFor(rows, keys), key, a, m) <==> Contributes(rows, keys, Key(key, m, v), a)
    ensures NoDuplicates(Materialized(BucketsFor(rows, keys), key, a, m))
  {
    if keys != [] {
      var n := |keys| - 1;
      var init, last := keys[..n], keys[n];
      var before, actions := BucketsFor(rows, init), ActionsOf(rows, last);
      BucketLists(rows, init, key, a, m);
      assert keys == init + [last] && last in KeysOf(rows);
      KeyHasActions(rows, last);
      if InConflict(actions) {
        assert actions != {a} by { ConflictIffBoth(actions); }
      } else {
        SingleAction(actions);
        KeyHasRow(rows, last);
        AddedList(before, NameOf(rows, last), last, if Allow in actions then Allow else Block, key, a, m);
      }
    }
  }

  lemma KeyHasActions(rows: seq<Row>, k: Key)
    requires k in KeysOf(rows)
    ensures ActionsOf(rows, k) != {}
  {
    MergeIff(rows, k, Allow);
    MergeIff(rows, k, Block);
  }

  /** A value is materialised for (group, action, match type) exactly when some binding asks for it and no binding of the
      opposite action does. */
  lemma MaterializedIff(rows: seq<Row>, key: string, a: Action, m: MatchType, v: string)
    ensures v in Materialized(Buckets(rows), key, a, m) <==>
            HasRow(rows, Key(key, m, v), a) && !HasRow(rows, Key(key, m, v), if a == Allow then Block else Allow)
    ensures NoDuplicates(Materialized(Buckets(rows), key, a, m))
  {
    var k, other := Key(key, m, v), if a == Allow then Block else Allow;
    BucketLists(rows, KeysOf(rows), key, a, m);
    MergeIff(rows, k, a);
    MergeIff(rows, k, other);
    forall x | x in ActionsOf(rows, k) ensures x == a || x == other {
    }
  }

  lemma {:induction false} NameIsARow(rows: seq<Row>, k: Key)
    requires exists r :: r in rows && KeyOf(r) == k
    ensures exists r :: r in rows && KeyOf(r) == k && r.blockingGroup == NameOf(rows, k)
  {
    if KeyOf(rows[0]) == k {
      assert rows[0] in rows;
    } else {
      var r :| r in rows && KeyOf(r) == k;
      assert r in rows[1..];
      NameIsARow(rows[1..], k);
    }
  }

  ghost predicate IsSpelled(rows: seq<Row>, name: string) {
    exists r :: r in rows && r.blockingGroup == name
  }

  /** A bucket bears a group name in the spelling of some binding. */
  lemma {:induction false} BucketNames(rows: seq<Row>, keys: seq<Key>)
    requires keys <= KeysOf(rows)
    ensures forall b :: b in BucketsFor(rows, keys) ==> IsSpelled(rows, b.name)
  {
    if keys != [] {
      var n := |keys| - 1;
      var before, k := BucketsFor(rows, keys[..n]), keys[n];
      BucketNames(rows, keys[..n]);
      assert k in KeysOf(rows);
      KeyHasRow(rows, k);
      NameIsARow(rows, k);
    }
  }

  lemma AddKeepsDistinct(buckets: seq<Group>, name: string, k: Key, a: Action)
    requires DistinctKeys(buckets) && Lower(name) == k.name
    ensures DistinctKeys(AddToBucket(buckets, name, k, a))
  {
    if IndexOf(buckets, k.name) < 0 {
      forall i | 0 <= i < |buckets| ensures Lower(buckets[i].name) != k.name {
        BucketAt(buckets, i);
      }
    }
  }

  lemma {:induction false} BucketsDistinct(rows: seq<Row>, keys: seq<Key>)
    requires keys <= KeysOf(rows)
    ensures DistinctKeys(BucketsFor(rows, keys))
  {
    if |keys| > 0 {
      var n := |keys| - 1;
      var last := keys[n];
      BucketsDistinct(rows, keys[..n]);
      assert last in KeysOf(rows);
      KeyHasRow(rows, last);
      AddKeepsDistinct(BucketsFor(rows, keys[..n]), NameOf(rows, last), last,
                       if Allow in ActionsOf(rows, last) then Allow else Block);
    }
  }

  lemma JoinIff(lib: Library, bindings: seq<Binding>, r: Row)
    ensures r in JoinRows(lib, bindings) <==>
            exists b, e :: b in bindings && e in lib.EntriesOf(b.domainGroup) &&
              r == Row(b.blockingGroup, b.action, e.matchType, e.value)
  {
    if bindings != [] {
      var n := |bindings| - 1;
      var last := bindings[n];
      var rows, entries := BindingRows(last, lib.EntriesOf(last.domainGroup)), lib.EntriesOf(last.domainGroup);
      JoinIff(lib, bindings[..n], r);
      assert bindings == bindings[..n] + [last];
      if r in rows {
        var i :| 0 <= i < |rows| && rows[i] == r;
        assert entries[i] in entries && last in bindings;
      }
      if e :| e in entries && r == Row(last.blockingGroup, last.action, e.matchType, e.value) {
        var i :| 0 <= i < |entries| && entries[i] == e;
        assert rows[i] == r;
      }
    }
  }

  lemma RowIsOwned(lib: Library, r: Row)
    requires r in Rows(lib)
    ensures Pair(Lower(r.blockingGroup), r.action) in Owned(lib)
  {
    JoinIff(lib, lib.bindings, r);
    var b, e :| b in lib.bindings && e in lib.EntriesOf(b.domainGroup) &&
      r == Row(b.blockingGroup, b.action, e.matchType, e.value);
    var i :| 0 <= i < |lib.bindings| && lib.bindings[i] == b;
    assert Owned(lib)[i] == Pair(Lower(r.blockingGroup), r.action);
  }

  /** The preview of any library meets what the three passes rely on. */
  lemma PreviewFits(lib: Library)
    ensures BucketsFit(Buckets(Rows(lib)), Owned(lib))
  {
    var rows := Rows(lib);
    var buckets := Buckets(rows);
    BucketsDistinct(rows, KeysOf(rows));
    forall b, a, m | b in buckets
      ensures NoDuplicates(b.List(a, m)) && (Pair(Lower(b.name), a) !in Owned(lib) ==> b.List(a, m) == [])
    {
      var n :| 0 <= n < |buckets| && buckets[n] == b;
      BucketAt(buckets, n);
      PreviewListFits(lib, b, a, m);
    }
  }

  lemma PreviewListFits(lib: Library, b: Group, a: Action, m: MatchType)
    requires Bucket(Buckets(Rows(lib)), Lower(b.name)) == Some(b)
    ensures NoDuplicates(b.List(a, m)) && (Pair(Lower(b.name), a) !in Owned(lib) ==> b.List(a, m) == [])
  {
    var key := Lower(b.name);
    forall v | v in b.List(a, m) ensures Pair(key, a) in Owned(lib) {
      MaterializedIff(Rows(lib), key, a, m, v);
      var r :| r in Rows(lib) && KeyOf(r) == Key(key, m, v) && r.action == a;
      RowIsOwned(lib, r);
    }
    EmptyIffNoMember(b.List(a, m));
    MaterializedIff(Rows(lib), key, a, m, "");
  }
}
