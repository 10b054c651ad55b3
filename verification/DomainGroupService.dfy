/** The service: preview loops, the three passes over a copied group array, and the commit that runs after the write.
    Every method is proved against the functions of `DomainGroupModel`, `DomainGroupPreview` and `DomainGroupRuns`. */
module DomainGroupService {
  import opened Strings
  import opened Options
  import opened Sequences
  import opened DomainGroupModel
  import opened DomainGroupEffects
  import opened DomainGroupCommit
  import opened DomainGroupPreview
  import opened DomainGroupConvergence
  import opened DomainGroupRuns

  // ---- when the list of updated groups is empty --------------------------------------------------

  function Size(groups: seq<Group>): nat {
    if groups == [] then 0
    else
      var g := groups[|groups| - 1];
      Size(groups[..|groups| - 1]) + |g.allowed| + |g.blocked| + |g.allowedRegex| + |g.blockedRegex|
  }

  function GroupSize(g: Group): nat {
    |g.allowed| + |g.blocked| + |g.allowedRegex| + |g.blockedRegex|
  }

  lemma {:induction false} SizeUpdate(groups: seq<Group>, i: nat, g: Group)
    requires i < |groups|
    ensures Size(groups[i := g]) == Size(groups) - GroupSize(groups[i]) + GroupSize(g)
  {
    var n := |groups| - 1;
    if i < n {
      assert groups[i := g][..n] == groups[..n][i := g];
      SizeUpdate(groups[..n], i, g);
    } else {
      assert groups[i := g][..n] == groups[..n];
    }
  }

  lemma DropSideSize(g: Group, a: Action, drop: set<string>)
    ensures GroupSize(DropSide(g, a, drop)) <= GroupSize(g)
    ensures GroupSize(DropSide(g, a, drop)) == GroupSize(g) ==> DropSide(g, a, drop) == g
  {
    WithoutLength(g.List(a, Exact), drop);
    WithoutLength(g.List(a, Regex), drop);
  }

  lemma DropFromSize(groups: seq<Group>, p: Pair, t: Tracking)
    ensures Size(DropFrom(groups, p, t)) <= Size(groups)
    ensures Size(DropFrom(groups, p, t)) == Size(groups) ==> DropFrom(groups, p, t) == groups
  {
    var i := IndexOf(groups, p.key);
    if i >= 0 {
      DropSideSize(groups[i], p.action, Tracked(t, p));
      SizeUpdate(groups, i, DropSide(groups[i], p.action, Tracked(t, p)));
    }
  }

  lemma {:induction false} DropAllSize(groups: seq<Group>, pairs: seq<Pair>, t: Tracking)
    ensures Size(DropAll(groups, pairs, t)) <= Size(groups)
    ensures Size(DropAll(groups, pairs, t)) == Size(groups) ==> DropAll(groups, pairs, t) == groups
  {
    if pairs != [] {
      DropAllSize(groups, pairs[..|pairs| - 1], t);
      DropFromSize(DropAll(groups, pairs[..|pairs| - 1], t), pairs[|pairs| - 1], t);
    }
  }

  lemma {:induction false} DedupLength(s: seq<string>)
    ensures |Dedup(s)| <= |s|
    ensures |Dedup(s)| == |s| ==> Dedup(s) == s
  {
    if s != [] {
      DedupLength(s[..|s| - 1]);
    }
  }

  lemma FinalSameFirstSame(before: Option<Group>, bucket: Option<Group>, owned: bool, tracked: set<string>, a: Action,
                           m: MatchType)
    requires before.None? ==> bucket.None?
    requires !owned && bucket.Some? ==> bucket.value.List(a, m) == []
    requires NextList(before, bucket, owned, tracked, a, m) == OldList(before, a, m)
    ensures FirstList(before, bucket, owned, tracked, a, m) == OldList(before, a, m)
  {
    var list := OldList(before, a, m);
    Nil(list);
    DedupLength(list);
    WithoutLength(Dedup(list), tracked);
  }

  /** The three passes leave the configuration as it was only if each of them did. */
  lemma UnchangedOverall(groups: seq<Group>, buckets: seq<Group>, owned: seq<Pair>, t: Tracking,
                         trackedPairs: seq<Pair>)
    requires BucketsFit(buckets, owned) && ListsPairs(trackedPairs, t)
    requires ApplyToGroups(groups, buckets, owned, t, trackedPairs) == groups
    ensures var first := FirstPass(groups, buckets, ToSet(owned), t);
            first == groups && DropAll(first, Unprocessed(owned, Keys(buckets)), t) == groups
  {
    var first := FirstPass(groups, buckets, ToSet(owned), t);
    var second := DropAll(first, Unprocessed(owned, Keys(buckets)), t);
    forall key, a, m ensures SameList(groups, first, key, a, m) {
      PassesComputeNextList(groups, buckets, owned, t, trackedPairs, key, a, m);
      FirstPassList(groups, buckets, owned, t, key, a, m);
      FindInKeys(buckets, key);
      UnownedListEmpty(buckets, owned, key, a, m);
      FinalSameFirstSame(Find(groups, key), Bucket(buckets, key), Pair(key, a) in owned, Tracked(t, Pair(key, a)), a, m);
    }
    FirstPassExtends(groups, buckets, ToSet(owned), t);
    DropAllLength(first, Unprocessed(owned, Keys(buckets)), t);
    DropAllLength(second, Unbound(trackedPairs, ToSet(owned)), t);
    SameListsSameGroups(groups, first);
    DropAllSize(first, Unprocessed(owned, Keys(buckets)), t);
    DropAllSize(second, Unbound(trackedPairs, ToSet(owned)), t);
  }

  // ---- the passes ------------------------------------------------------------------------------------

  lemma {:induction false} FirstPassPrefix(groups: seq<Group>, buckets: seq<Group>, n: nat, owned: set<Pair>,
                                           t: Tracking)
    requires n < |buckets| && DistinctKeys(buckets)
    ensures Find(FirstPass(groups, buckets[..n], owned, t), Lower(buckets[n].name)) == Find(groups, Lower(buckets[n].name))
    ensures FirstPass(groups, buckets[..n + 1], owned, t) == MergeInto(FirstPass(groups, buckets[..n], owned, t), buckets[n], owned, t)
  {
    assert buckets[..n + 1][..n] == buckets[..n];
    FindFirstPass(groups, buckets[..n], owned, t, Lower(buckets[n].name));
    FindInKeys(buckets[..n], Lower(buckets[n].name));
  }

  /** One step keeps the equivalence "something was pushed to `updatedGroups`" = "the array differs". */
  lemma MergeChanges(groups: seq<Group>, r: seq<Group>, b: Group, owned: set<Pair>, t: Tracking)
    requires Extends(groups, r) && Find(r, Lower(b.name)) == Find(groups, Lower(b.name))
    ensures var i := IndexOf(r, Lower(b.name));
            MergeInto(r, b, owned, t) != groups <==> r != groups || i < 0 || Merge(r[i], b, owned, t) != r[i]
  {
    var key := Lower(b.name);
    var i, r' := IndexOf(r, key), MergeInto(r, b, owned, t);
    if i >= 0 && |r| == |groups| {
      SameNamesSameIndex(groups, r, key);
      assert r[i] == groups[i];
      if r != groups {
        var j :| 0 <= j < |r| && r[j] != groups[j];
        assert r'[j] == r[j];
      }
    }
  }

  /** First pass: a group that is missing is created; otherwise its four lists are merged in place. */
  method MergeMaterialized(groups: seq<Group>, buckets: seq<Group>, owned: set<Pair>, tracking: Tracking)
    returns (r: seq<Group>, updated: seq<string>, skipped: seq<string>, writes: seq<Write>)
    requires DistinctKeys(buckets)
    ensures r == FirstPass(groups, buckets, owned, tracking)
    ensures |updated| == 0 <==> r == groups
    ensures writes == FirstWrites(buckets, owned)
  {
    r, updated, skipped, writes := groups, [], [], [];
    for n := 0 to |buckets|
      invariant r == FirstPass(groups, buckets[..n], owned, tracking)
      invariant |updated| == 0 <==> r == groups
      invariant writes == FirstWrites(buckets[..n], owned)
    {
      var b := buckets[n];
      FirstPassPrefix(groups, buckets, n, owned, tracking);
      FirstPassExtends(groups, buckets[..n], owned, tracking);
      MergeChanges(groups, r, b, owned, tracking);
      var pushed;
      r, pushed := MergeBucket(r, b, owned, tracking);
      if pushed {
        updated := updated + [b.name];
      } else {
        skipped := skipped + [b.name];
      }
      writes := writes + BucketWrites(b, owned);
      InitOfAppend(buckets[..n], b);
      assert buckets[..n] + [b] == buckets[..n + 1];
    }
    assert buckets[..|buckets|] == buckets;
  }

  /** One materialised group: created, or merged into its slot. */
  method MergeBucket(groups: seq<Group>, b: Group, owned: set<Pair>, tracking: Tracking) returns (r: seq<Group>,
                     pushed: bool)
    ensures r == MergeInto(groups, b, owned, tracking)
    ensures pushed <==> IndexOf(groups, Lower(b.name)) < 0
                        || Merge(groups[IndexOf(groups, Lower(b.name))], b, owned, tracking) != groups[IndexOf(groups, Lower(b.name))]
  {
    var i := IndexOf(groups, Lower(b.name));
    if i < 0 {
      r, pushed := groups + [Created(b)], true;
    } else {
      var merged := Merge(groups[i], b, owned, tracking);
      r, pushed := groups[i := merged], merged != groups[i];
    }
  }

  lemma DropAllStep(groups: seq<Group>, pairs: seq<Pair>, n: nat, t: Tracking)
    requires n < |pairs|
    ensures DropAll(groups, pairs[..n + 1], t) == DropFrom(DropAll(groups, pairs[..n], t), pairs[n], t)
    ensures DropAll(groups, pairs[..n + 1], t) == groups <==>
            DropAll(groups, pairs[..n], t) == groups && DropFrom(DropAll(groups, pairs[..n], t), pairs[n], t) == DropAll(groups, pairs[..n], t)
  {
    var r := DropAll(groups, pairs[..n], t);
    assert pairs[..n + 1][..n] == pairs[..n];
    DropAllSize(groups, pairs[..n], t);
    DropFromSize(r, pairs[n], t);
  }

  /** Second and third pass: take what was tracked for a pair out of its two lists. */
  method DropTracked(groups: seq<Group>, pairs: seq<Pair>, tracking: Tracking)
    returns (r: seq<Group>, updated: seq<string>, skipped: seq<string>)
    ensures r == DropAll(groups, pairs, tracking)
    ensures updated == [] <==> r == groups
  {
    r, updated, skipped := groups, [], [];
    for n := 0 to |pairs|
      invariant r == DropAll(groups, pairs[..n], tracking)
      invariant updated == [] <==> r == groups
    {
      DropAllStep(groups, pairs, n, tracking);
      var p := pairs[n];
      var previous := Tracked(tracking, p);
      var i := IndexOf(r, p.key);
      if previous != {} && i >= 0 {
        var dropped := DropSide(r[i], p.action, previous);
        if dropped == r[i] {
          skipped := skipped + [p.key];
        } else {
          updated := updated + [p.key];
        }
        r := r[i := dropped];
      }
    }
    assert pairs[..|pairs|] == pairs;
  }

  /** `applyMaterializedGroupsToConfig`: the next groups, the names that changed, and the tracking mutations to run after
      the write. The configuration differs exactly when some name is reported as updated. */
  method ApplyMaterializedGroups(groups: seq<Group>, buckets: seq<Group>, owned: seq<Pair>, tracking: Tracking,
                                 trackedPairs: seq<Pair>)
    returns (next: seq<Group>, updated: seq<string>, writes: seq<Write>, deletes: seq<Pair>)
    requires BucketsFit(buckets, owned) && ListsPairs(trackedPairs, tracking)
    ensures next == ApplyToGroups(groups, buckets, owned, tracking, trackedPairs)
    ensures updated == [] <==> next == groups
    ensures writes == Writes(buckets, owned)
    ensures deletes == Unbound(trackedPairs, ToSet(owned))
  {
    var first, updated1, _, firstWrites := MergeMaterialized(groups, buckets, ToSet(owned), tracking);
    var left := Unprocessed(owned, Keys(buckets));
    var second, updated2, _ := DropTracked(first, left, tracking);
    deletes := Unbound(trackedPairs, ToSet(owned));
    var third, updated3, _ := DropTracked(second, deletes, tracking);
    next, updated := third, updated1 + updated2 + updated3;
    writes := firstWrites + EmptyWrites(left);
    if next == groups {
      UnchangedOverall(groups, buckets, owned, tracking, trackedPairs);
    }
  }

  // ---- the preview -----------------------------------------------------------------------------------

  lemma KeysStep(rows: seq<Row>, n: nat)
    requires n < |rows|
    ensures KeysOf(rows[..n + 1]) ==
            if KeyOf(rows[n]) in KeysOf(rows[..n]) then KeysOf(rows[..n]) else KeysOf(rows[..n]) + [KeyOf(rows[n])]
    ensures forall k :: ActionsOf(rows[..n + 1], k) ==
                        ActionsOf(rows[..n], k) + (if KeyOf(rows[n]) == k then {rows[n].action} else {})
  {
    assert rows[..n + 1][..n] == rows[..n];
  }

  lemma {:induction false} NameStep(rows: seq<Row>, r: Row, k: Key)
    ensures NameOf(rows + [r], k) == if k in KeysOf(rows) then NameOf(rows, k)
                                     else if KeyOf(r) == k then r.blockingGroup else k.name
  {
    MergeIff(rows, k, Allow);
    if rows == [] {
      assert rows + [r] == [r];
    } else {
      assert (rows + [r])[1..] == rows[1..] + [r];
      NameStep(rows[1..], r, k);
      MergeIff(rows[1..], k, Allow);
      if KeyOf(rows[0]) == k {
        assert rows[0] in rows;
        assert HasRow(rows, k, rows[0].action);
      } else {
        HasRowTail(rows, k, Allow);
        HasRowTail(rows, k, Block);
      }
    }
  }

  lemma HasRowTail(rows: seq<Row>, k: Key, a: Action)
    requires rows != [] && KeyOf(rows[0]) != k
    ensures HasRow(rows, k, a) <==> HasRow(rows[1..], k, a)
  {
    if HasRow(rows, k, a) {
      var r :| r in rows && KeyOf(r) == k && r.action == a;
      assert r in rows[1..];
    }
  }

  /** What `byKey` holds for one key: the spelling of its first row and the set of its actions. */
  datatype Accumulated = Accumulated(name: string, actions: set<Action>)

  ghost predicate Accumulates(byKey: map<Key, Accumulated>, rows: seq<Row>) {
    forall k :: (k in byKey <==> k in KeysOf(rows)) &&
                (k in byKey ==> byKey[k] == Accumulated(NameOf(rows, k), ActionsOf(rows, k)))
  }

  method MergeRows(rows: seq<Row>) returns (order: seq<Key>, byKey: map<Key, Accumulated>)
    ensures order == KeysOf(rows)
    ensures Accumulates(byKey, rows)
  {
    order, byKey := [], map[];
    for n := 0 to |rows|
      invariant order == KeysOf(rows[..n])
      invariant Accumulates(byKey, rows[..n])
    {
      var row := rows[n];
      var key := KeyOf(row);
      KeysStep(rows, n);
      AccumulateStep(byKey, rows[..n], row);
      assert rows[..n] + [row] == rows[..n + 1];
      if key in byKey {
        byKey := byKey[key := byKey[key].(actions := byKey[key].actions + {row.action})];
      } else {
        order := order + [key];
        byKey := byKey[key := Accumulated(row.blockingGroup, {row.action})];
      }
    }
    assert rows[..|rows|] == rows;
  }

  lemma AccumulateStep(byKey: map<Key, Accumulated>, rows: seq<Row>, row: Row)
    requires Accumulates(byKey, rows)
    ensures var key := KeyOf(row);
            Accumulates(if key in byKey then byKey[key := byKey[key].(actions := byKey[key].actions + {row.action})]
                        else byKey[key := Accumulated(row.blockingGroup, {row.action})], rows + [row])
  {
    var key := KeyOf(row);
    InitOfAppend(rows, row);
    assert key !in KeysOf(rows) ==> ActionsOf(rows, key) == {} by {
      MergeIff(rows, key, Allow);
      MergeIff(rows, key, Block);
      if a :| a in ActionsOf(rows, key) {
        assert a == Allow || a == Block;
      }
    }
    forall k ensures NameOf(rows + [row], k) == if k in KeysOf(rows) then NameOf(rows, k)
                                                else if key == k then row.blockingGroup else k.name
    {
      NameStep(rows, row, k);
    }
  }

  lemma NextKey(rows: seq<Row>, order: seq<Key>, n: nat)
    requires n < |order|
    ensures var actions := ActionsOf(rows, order[n]);
            && Conflicts(rows, order[..n + 1]) == Conflicts(rows, order[..n]) + (if InConflict(actions) then [order[n]] else [])
            && BucketsFor(rows, order[..n + 1]) ==
               if InConflict(actions) then BucketsFor(rows, order[..n])
               else AddToBucket(BucketsFor(rows, order[..n]), NameOf(rows, order[n]), order[n], if Allow in actions then Allow else Block)
  {
    assert order[..n + 1][..n] == order[..n];
  }

  /** `getMaterializationPreview`: the conflicts and one bucket of four value sets per group name. */
  method BuildPreview(lib: Library) returns (buckets: seq<Group>, conflicts: seq<Key>)
    ensures buckets == Buckets(Rows(lib))
    ensures conflicts == Conflicts(Rows(lib), KeysOf(Rows(lib)))
  {
    var rows := Rows(lib);
    var order, byKey := MergeRows(rows);
    buckets, conflicts := [], [];
    for n := 0 to |order|
      invariant buckets == BucketsFor(rows, order[..n])
      invariant conflicts == Conflicts(rows, order[..n])
    {
      var k := order[n];
      NextKey(rows, order, n);
      assert k in order;
      var item := byKey[k];
      if InConflict(item.actions) {
        conflicts := conflicts + [k];
      } else {
        buckets := AddToBucket(buckets, item.name, k, if Allow in item.actions then Allow else Block);
      }
    }
    assert order[..|order|] == order;
  }

  // ---- the service -----------------------------------------------------------------------------------

  class Service {
    // The remote node's groups.
    var groups: seq<Group>
    // The tracking table.
    var tracking: Tracking

    ghost function St(): State
      reads this
    {
      State.State(groups, tracking)
    }

    /** Runs the pending mutations: per write, delete the pair's rows and insert the new ones; then the deletes. A row that
        exists already stops the commit half-way, as there is no transaction around it. */
    method CommitTracking(writes: seq<Write>, deletes: seq<Pair>) returns (ok: bool)
      modifies this`tracking
      ensures match CommitAll(old(tracking), writes, deletes)
              case Committed(t) => ok && tracking == t
              case Broken(t) => !ok && tracking == t
    {
      ghost var before := tracking;
      for n := 0 to |writes|
        invariant CommitWrites(before, writes[..n]) == Committed(tracking)
      {
        CommitStep(before, writes, n);
        var w := writes[n];
        tracking := tracking - {w.pair};
        ghost var cleared := tracking;
        for j := 0 to |w.values|
          invariant InsertRows(cleared, w.pair, w.values[..j]) == Committed(tracking)
        {
          InsertStep(cleared, w.pair, w.values, j);
          if w.values[j] in Tracked(tracking, w.pair) {
            BrokenInsert(cleared, w.pair, w.values, j + 1);
            BrokenWrites(before, writes, n + 1);
            return false;
          }
          tracking := AddRow(tracking, w.pair, w.values[j]);
        }
        assert w.values[..|w.values|] == w.values;
      }
      assert writes[..|writes|] == writes;
      tracking := tracking - ToSet(deletes);
      ok := true;
    }

    /** The distinct pairs of the tracking table, in some order. */
    method ListTrackedPairs() returns (pairs: seq<Pair>)
      ensures ListsPairs(pairs, tracking)
    {
      pairs := [];
      var rest := tracking.Keys;
      while rest != {}
        invariant rest <= tracking.Keys
        invariant forall p :: p in pairs <==> p in tracking.Keys - rest
        decreases rest
      {
        var p :| p in rest;
        rest := rest - {p};
        pairs := pairs + [p];
      }
    }

    /** A single-node apply: refused on conflicts; otherwise load, merge, write if anything changed, commit. */
    method ApplyMaterialization(lib: Library, faults: Faults) returns (outcome: Outcome, ghost pairs: seq<Pair>)
      modifies this
      ensures ListsPairs(pairs, old(tracking))
      ensures (St(), outcome) == Apply(old(St()), lib, pairs, faults)
    {
      var listed := ListTrackedPairs();
      pairs := listed;
      var buckets, conflicts := BuildPreview(lib);
      if conflicts != [] {
        return Refused, pairs;
      }
      if faults.load {
        return Errored, pairs;
      }
      PreviewFits(lib);
      var next, updated, writes, deletes := ApplyMaterializedGroups(groups, buckets, Owned(lib), tracking, listed);
      if updated != [] {
        if faults.write {
          return Errored, pairs;
        }
        groups := next;
      }
      var ok := CommitTracking(writes, deletes);
      outcome := if ok then Done else Errored;
    }
  }

  // ---- steps of the commit loops -----------------------------------------------------------------------

  lemma CommitStep(t: Tracking, writes: seq<Write>, n: nat)
    requires n < |writes| && CommitWrites(t, writes[..n]).Committed?
    ensures var w := writes[n];
            CommitWrites(t, writes[..n + 1]) == InsertRows(CommitWrites(t, writes[..n]).t - {w.pair}, w.pair, w.values)
  {
    assert writes[..n + 1][..n] == writes[..n];
  }

  lemma InsertStep(t: Tracking, p: Pair, values: seq<string>, j: nat)
    requires j < |values| && InsertRows(t, p, values[..j]).Committed?
    ensures var t' := InsertRows(t, p, values[..j]).t;
            InsertRows(t, p, values[..j + 1]) ==
            if values[j] in Tracked(t', p) then Broken(t') else Committed(AddRow(t', p, values[j]))
  {
    assert values[..j + 1][..j] == values[..j];
  }

  lemma {:induction false} BrokenInsert(t: Tracking, p: Pair, values: seq<string>, j: nat)
    requires j <= |values| && InsertRows(t, p, values[..j]).Broken?
    ensures InsertRows(t, p, values) == InsertRows(t, p, values[..j])
    decreases |values| - j
  {
    if j < |values| {
      assert values[..j + 1][..j] == values[..j];
      BrokenInsert(t, p, values, j + 1);
    } else {
      assert values[..j] == values;
    }
  }

  lemma {:induction false} BrokenWrites(t: Tracking, writes: seq<Write>, n: nat)
    requires n <= |writes| && CommitWrites(t, writes[..n]).Broken?
    ensures CommitWrites(t, writes) == CommitWrites(t, writes[..n])
    decreases |writes| - n
  {
    if n < |writes| {
      assert writes[..n + 1][..n] == writes[..n];
      BrokenWrites(t, writes, n + 1);
    } else {
      assert writes[..n] == writes;
    }
  }
}
