/** Around the merge: what it leaves alone, and when and what the tracking commit records. */
module DomainGroupCommit {
  import opened Strings
  import opened Options
  import opened Sequences
  import opened DomainGroupModel
  import opened DomainGroupEffects

  // ---- groups keep their place -------------------------------------------------------------------

  /** `b` extends `a`: same names and other fields, and groups shadowed by a later one of the same name untouched. */
  ghost predicate Extends(a: seq<Group>, b: seq<Group>) {
    && |a| <= |b|
    && (forall i :: 0 <= i < |a| ==> a[i].name == b[i].name && a[i].settings == b[i].settings)
    && (forall i :: 0 <= i < |a| && IndexOf(a, Lower(a[i].name)) != i ==>
          a[i] == b[i] && IndexOf(b, Lower(b[i].name)) != i)
  }

  lemma UpdateKeepsShadowed(groups: seq<Group>, i: nat, g: Group, j: nat)
    requires i < |groups| && g.name == groups[i].name && IndexOf(groups, Lower(g.name)) == i
    requires j < |groups| && IndexOf(groups, Lower(groups[j].name)) != j
    ensures groups[i := g][j] == groups[j] && IndexOf(groups[i := g], Lower(groups[j].name)) != j
  {
    IndexOfUpdate(groups, i, g, Lower(groups[j].name));
    assert i != j;
  }

  lemma UpdateExtends(groups: seq<Group>, i: nat, g: Group)
    requires i < |groups| && g.name == groups[i].name && g.settings == groups[i].settings
    requires IndexOf(groups, Lower(g.name)) == i
    ensures Extends(groups, groups[i := g])
  {
    var r := groups[i := g];
    forall j | 0 <= j < |groups| && IndexOf(groups, Lower(groups[j].name)) != j
      ensures groups[j] == r[j] && IndexOf(r, Lower(r[j].name)) != j
    {
      UpdateKeepsShadowed(groups, i, g, j);
    }
  }

  lemma AppendExtends(groups: seq<Group>, g: Group)
    ensures Extends(groups, groups + [g])
  {
    forall j | 0 <= j < |groups| && IndexOf(groups, Lower(groups[j].name)) != j
      ensures IndexOf(groups + [g], Lower(groups[j].name)) != j
    {
      IndexOfAppend(groups, g, Lower(groups[j].name));
    }
  }

  lemma ExtendsTransitive(a: seq<Group>, b: seq<Group>, c: seq<Group>)
    requires Extends(a, b) && Extends(b, c)
    ensures Extends(a, c)
  {
  }

  lemma {:induction false} FirstPassExtends(groups: seq<Group>, buckets: seq<Group>, owned: set<Pair>, t: Tracking)
    ensures Extends(groups, FirstPass(groups, buckets, owned, t))
  {
    if buckets != [] {
      var n := |buckets| - 1;
      var r, b := FirstPass(groups, buckets[..n], owned, t), buckets[n];
      FirstPassExtends(groups, buckets[..n], owned, t);
      var i := IndexOf(r, Lower(b.name));
      if i < 0 {
        AppendExtends(r, Created(b));
      } else {
        UpdateExtends(r, i, Merge(r[i], b, owned, t));
      }
      ExtendsTransitive(groups, r, MergeInto(r, b, owned, t));
    }
  }

  lemma {:induction false} DropAllExtends(groups: seq<Group>, pairs: seq<Pair>, t: Tracking)
    ensures Extends(groups, DropAll(groups, pairs, t))
  {
    if pairs != [] {
      var n := |pairs| - 1;
      var r, p := DropAll(groups, pairs[..n], t), pairs[n];
      DropAllExtends(groups, pairs[..n], t);
      var i := IndexOf(r, p.key);
      if i >= 0 {
        UpdateExtends(r, i, DropSide(r[i], p.action, Tracked(t, p)));
      }
      ExtendsTransitive(groups, r, DropFrom(r, p, t));
    }
  }

  /** No group is renamed, moved or lost, no other field changes, and shadowed groups keep their lists too. */
  lemma PassesExtend(groups: seq<Group>, buckets: seq<Group>, owned: seq<Pair>, t: Tracking, trackedPairs: seq<Pair>)
    ensures Extends(groups, ApplyToGroups(groups, buckets, owned, t, trackedPairs))
  {
    var first := FirstPass(groups, buckets, ToSet(owned), t);
    var pairs2, pairs3 := Unprocessed(owned, Keys(buckets)), Unbound(trackedPairs, ToSet(owned));
    var second := DropAll(first, pairs2, t);
    FirstPassExtends(groups, buckets, ToSet(owned), t);
    DropAllExtends(first, pairs2, t);
    DropAllExtends(second, pairs3, t);
    ExtendsTransitive(groups, first, second);
    ExtendsTransitive(groups, second, DropAll(second, pairs3, t));
  }

  /** New groups come after the old ones, named like a bucket and with nothing but lists. */
  ghost predicate IsNew(g: Group, buckets: seq<Group>) {
    g.settings == map[] && exists b :: b in buckets && b.name == g.name
  }

  ghost predicate AddsOnlyNew(groups: seq<Group>, r: seq<Group>, buckets: seq<Group>) {
    |groups| <= |r| && forall i :: |groups| <= i < |r| ==> IsNew(r[i], buckets)
  }

  lemma {:induction false} FirstPassCreates(groups: seq<Group>, buckets: seq<Group>, owned: set<Pair>, t: Tracking)
    ensures AddsOnlyNew(groups, FirstPass(groups, buckets, owned, t), buckets)
  {
    if buckets != [] {
      var n := |buckets| - 1;
      var r, r' := FirstPass(groups, buckets[..n], owned, t), FirstPass(groups, buckets, owned, t);
      FirstPassCreates(groups, buckets[..n], owned, t);
      assert buckets[n] in buckets && forall b :: b in buckets[..n] ==> b in buckets;
      forall i | |groups| <= i < |r'| ensures IsNew(r'[i], buckets) {
        assert i < |r| ==> r'[i].name == r[i].name && r'[i].settings == r[i].settings && IsNew(r[i], buckets[..n]);
      }
    }
  }

  lemma {:induction false} DropAllCreatesNothing(groups: seq<Group>, pairs: seq<Pair>, t: Tracking)
    ensures var r := DropAll(groups, pairs, t);
            && |r| == |groups|
            && forall i :: 0 <= i < |r| ==> r[i].name == groups[i].name && r[i].settings == groups[i].settings
  {
    if pairs != [] {
      DropAllCreatesNothing(groups, pairs[..|pairs| - 1], t);
    }
  }

  lemma PassesCreate(groups: seq<Group>, buckets: seq<Group>, owned: seq<Pair>, t: Tracking, trackedPairs: seq<Pair>)
    ensures AddsOnlyNew(groups, ApplyToGroups(groups, buckets, owned, t, trackedPairs), buckets)
  {
    var first := FirstPass(groups, buckets, ToSet(owned), t);
    var pairs2, pairs3 := Unprocessed(owned, Keys(buckets)), Unbound(trackedPairs, ToSet(owned));
    var second := DropAll(first, pairs2, t);
    FirstPassCreates(groups, buckets, ToSet(owned), t);
    DropAllCreatesNothing(first, pairs2, t);
    DropAllCreatesNothing(second, pairs3, t);
    var r := DropAll(second, pairs3, t);
    forall i | |groups| <= i < |r| ensures IsNew(r[i], buckets) {
      assert IsNew(first[i], buckets);
    }
  }

  // ---- the commit --------------------------------------------------------------------------------

  /** The rows that a pair's write carries: exact values, then regex values. */
  function Values(buckets: seq<Group>, p: Pair): seq<string> {
    Materialized(buckets, p.key, p.action, Exact) + Materialized(buckets, p.key, p.action, Regex)
  }

  lemma {:induction false} InsertRowsIff(t: Tracking, p: Pair, values: seq<string>)
    requires Tracked(t, p) == {}
    ensures InsertRows(t, p, values).Committed? <==> NoDuplicates(values)
    ensures var r := InsertRows(t, p, values);
            r.Committed? ==>
              Tracked(r.t, p) == ToSet(values) && forall q :: q != p ==> Tracked(r.t, q) == Tracked(t, q)
  {
    if values != [] {
      var n := |values| - 1;
      InsertRowsIff(t, p, values[..n]);
      assert values == values[..n] + [values[n]];
    }
  }

  function LastWrite(writes: seq<Write>, p: Pair): Option<seq<string>> {
    if writes == [] then None
    else if writes[|writes| - 1].pair == p then Some(writes[|writes| - 1].values)
    else LastWrite(writes[..|writes| - 1], p)
  }

  ghost predicate Writable(writes: seq<Write>) {
    forall i :: 0 <= i < |writes| ==> NoDuplicates(writes[i].values)
  }

  ghost function AfterWrites(t: Tracking, writes: seq<Write>, p: Pair): set<string> {
    match LastWrite(writes, p)
    case None => Tracked(t, p)
    case Some(values) => ToSet(values)
  }

  lemma {:induction false} CommitWritesIff(t: Tracking, writes: seq<Write>)
    ensures CommitWrites(t, writes).Committed? <==> Writable(writes)
    ensures var r := CommitWrites(t, writes);
            r.Committed? ==> forall p :: Tracked(r.t, p) == AfterWrites(t, writes, p)
  {
    if writes != [] {
      var n := |writes| - 1;
      CommitWritesIff(t, writes[..n]);
      var r := CommitWrites(t, writes[..n]);
      assert Writable(writes) <==> Writable(writes[..n]) && NoDuplicates(writes[n].values);
      if r.Committed? {
        var w, cleared := writes[n], r.t - {writes[n].pair};
        InsertRowsIff(cleared, w.pair, w.values);
        var r' := InsertRows(cleared, w.pair, w.values);
        if r'.Committed? {
          forall p ensures Tracked(r'.t, p) == AfterWrites(t, writes, p) {
            if p != w.pair {
              assert Tracked(cleared, p) == Tracked(r.t, p) == AfterWrites(t, writes[..n], p);
            }
          }
        }
      }
    }
  }

  lemma LastWriteConcat(a: seq<Write>, b: seq<Write>, p: Pair)
    ensures LastWrite(a + b, p) == if LastWrite(b, p).Some? then LastWrite(b, p) else LastWrite(a, p)
  {
    if b == [] {
      assert a + b == a;
    } else {
      LastWriteConcat(a, b[..|b| - 1], p);
      assert (a + b)[..|a + b| - 1] == a + b[..|b| - 1];
    }
  }

  lemma BucketWritesLast(b: Group, owned: set<Pair>, p: Pair)
    ensures LastWrite(BucketWrites(b, owned), p) ==
            if p.key == Lower(b.name) && p in owned then Some(b.List(p.action, Exact) + b.List(p.action, Regex)) else None
  {
    var key := Lower(b.name);
    var allow := if Pair(key, Allow) in owned then [Write(Pair(key, Allow), b.allowed + b.allowedRegex)] else [];
    var block := if Pair(key, Block) in owned then [Write(Pair(key, Block), b.blocked + b.blockedRegex)] else [];
    LastWriteConcat(allow, block, p);
  }

  lemma {:induction false} FirstWritesLast(buckets: seq<Group>, owned: set<Pair>, p: Pair)
    requires DistinctKeys(buckets)
    ensures LastWrite(FirstWrites(buckets, owned), p) ==
            if p in owned && Bucket(buckets, p.key).Some? then Some(Values(buckets, p)) else None
  {
    if buckets != [] {
      var n := |buckets| - 1;
      var init, b := buckets[..n], buckets[n];
      FirstWritesLast(init, owned, p);
      BucketWritesLast(b, owned, p);
      LastWriteConcat(FirstWrites(init, owned), BucketWrites(b, owned), p);
    }
  }

  lemma {:induction false} EmptyWritesLast(pairs: seq<Pair>, p: Pair)
    ensures LastWrite(EmptyWrites(pairs), p) == if p in pairs then Some([]) else None
  {
    if pairs != [] {
      var n := |pairs| - 1;
      EmptyWritesLast(pairs[..n], p);
      assert EmptyWrites(pairs)[..n] == EmptyWrites(pairs[..n]);
      assert pairs == pairs[..n] + [pairs[n]];
    }
  }

  lemma WritesLast(buckets: seq<Group>, owned: seq<Pair>, p: Pair)
    requires DistinctKeys(buckets)
    ensures LastWrite(Writes(buckets, owned), p) == if p in owned then Some(Values(buckets, p)) else None
  {
    FirstWritesLast(buckets, ToSet(owned), p);
    EmptyWritesLast(Unprocessed(owned, Keys(buckets)), p);
    LastWriteConcat(FirstWrites(buckets, ToSet(owned)), EmptyWrites(Unprocessed(owned, Keys(buckets))), p);
    FindInKeys(buckets, p.key);
    if Bucket(buckets, p.key).None? {
      assert Values(buckets, p) == [];
    }
  }

  // ---- when the commit goes through ----------------------------------------------------------------

  lemma {:induction false} WritableMember(writes: seq<Write>, p: Pair)
    requires Writable(writes) && LastWrite(writes, p).Some?
    ensures NoDuplicates(LastWrite(writes, p).value)
  {
    if writes[|writes| - 1].pair != p {
      WritableMember(writes[..|writes| - 1], p);
    }
  }

  lemma {:induction false} FirstWritesAre(buckets: seq<Group>, owned: set<Pair>, all: seq<Group>)
    requires DistinctKeys(all) && buckets <= all
    ensures forall w :: w in FirstWrites(buckets, owned) ==> w.pair in owned && w.values == Values(all, w.pair)
  {
    if buckets != [] {
      var n := |buckets| - 1;
      FirstWritesAre(buckets[..n], owned, all);
      BucketAt(all, n);
    }
  }

  lemma {:induction false} BucketAt(all: seq<Group>, n: nat)
    requires DistinctKeys(all) && n < |all|
    ensures Bucket(all, Lower(all[n].name)) == Some(all[n])
  {
    var m := |all| - 1;
    if n < m {
      assert Lower(all[n].name) != Lower(all[m].name);
      BucketAt(all[..m], n);
    }
  }

  /** The commit goes through exactly when no owned pair materialises a value both as an exact entry and as a regex:
      the rows of a pair do not record the match type. Then each owned pair tracks exactly what it materialises and
      unowned pairs track nothing. */
  lemma CommitRecordsMaterialized(buckets: seq<Group>, owned: seq<Pair>, t: Tracking, trackedPairs: seq<Pair>)
    requires BucketsFit(buckets, owned) && ListsPairs(trackedPairs, t)
    ensures var r := CommitAll(t, Writes(buckets, owned), Unbound(trackedPairs, ToSet(owned)));
            && (r.Committed? <==> forall p :: p in owned ==> NoDuplicates(Values(buckets, p)))
            && (r.Committed? ==>
                  forall p :: Tracked(r.t, p) == if p in owned then ToSet(Values(buckets, p)) else {})
  {
    var writes, deletes := Writes(buckets, owned), Unbound(trackedPairs, ToSet(owned));
    CommitWritesIff(t, writes);
    WritableIff(buckets, owned);
    if Writable(writes) {
      forall p ensures Tracked(CommitAll(t, writes, deletes).t, p) ==
                       if p in owned then ToSet(Values(buckets, p)) else {}
      {
        CommittedPair(t, buckets, owned, trackedPairs, p);
      }
    }
  }

  lemma CommittedPair(t: Tracking, buckets: seq<Group>, owned: seq<Pair>, trackedPairs: seq<Pair>, p: Pair)
    requires BucketsFit(buckets, owned) && ListsPairs(trackedPairs, t) && Writable(Writes(buckets, owned))
    ensures var r := CommitAll(t, Writes(buckets, owned), Unbound(trackedPairs, ToSet(owned)));
            r.Committed? && Tracked(r.t, p) == if p in owned then ToSet(Values(buckets, p)) else {}
  {
    var writes, deletes := Writes(buckets, owned), Unbound(trackedPairs, ToSet(owned));
    CommitWritesIff(t, writes);
    WritesLast(buckets, owned, p);
    var t' := CommitWrites(t, writes).t;
    assert Tracked(t', p) == AfterWrites(t, writes, p);
    if p !in owned && p !in deletes {
      assert p !in trackedPairs;
    }
  }

  lemma WritableIff(buckets: seq<Group>, owned: seq<Pair>)
    requires DistinctKeys(buckets)
    ensures Writable(Writes(buckets, owned)) <==> forall p :: p in owned ==> NoDuplicates(Values(buckets, p))
  {
    var writes, first := Writes(buckets, owned), FirstWrites(buckets, ToSet(owned));
    if Writable(writes) {
      forall p | p in owned ensures NoDuplicates(Values(buckets, p)) {
        WritesLast(buckets, owned, p);
        WritableMember(writes, p);
      }
    }
    if forall p :: p in owned ==> NoDuplicates(Values(buckets, p)) {
      FirstWritesAre(buckets, ToSet(owned), buckets);
      forall i | 0 <= i < |writes| ensures NoDuplicates(writes[i].values) {
        if i < |first| {
          assert writes[i] in first;
        }
      }
    }
  }
}
