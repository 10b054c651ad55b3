/** The three passes refine a one-line specification: for each group, action and match type,
    new list = (old list minus tracked) plus materialised. */
module DomainGroupEffects {
  import opened Strings
  import opened Options
  import opened Sequences
  import opened DomainGroupModel

  ghost predicate DistinctKeys(buckets: seq<Group>) {
    forall i, j :: 0 <= i < j < |buckets| ==> Lower(buckets[i].name) != Lower(buckets[j].name)
  }

  // ---- looking a group up after an update --------------------------------------------------------

  lemma {:induction false} IndexOfUpdate(groups: seq<Group>, i: nat, g: Group, key: string)
    requires i < |groups| && Lower(g.name) == Lower(groups[i].name)
    ensures IndexOf(groups[i := g], key) == IndexOf(groups, key)
  {
    var n := |groups| - 1;
    if Lower(groups[n].name) != key {
      if i < n {
        assert groups[i := g][..n] == groups[..n][i := g];
        IndexOfUpdate(groups[..n], i, g, key);
      } else {
        assert groups[i := g][..n] == groups[..n];
      }
    }
  }

  lemma IndexOfAppend(groups: seq<Group>, g: Group, key: string)
    ensures IndexOf(groups + [g], key) == if Lower(g.name) == key then |groups| else IndexOf(groups, key)
  {
    assert (groups + [g])[..|groups|] == groups;
  }

  ghost function MergeFound(g: Option<Group>, b: Group, owned: set<Pair>, t: Tracking): Group {
    match g
    case None => Created(b)
    case Some(g) => Merge(g, b, owned, t)
  }

  lemma FindMergeInto(groups: seq<Group>, b: Group, owned: set<Pair>, t: Tracking, key: string)
    ensures Find(MergeInto(groups, b, owned, t), key) ==
            if key == Lower(b.name) then Some(MergeFound(Find(groups, key), b, owned, t)) else Find(groups, key)
  {
    var i := IndexOf(groups, Lower(b.name));
    if i < 0 {
      IndexOfAppend(groups, Created(b), key);
    } else {
      IndexOfUpdate(groups, i, Merge(groups[i], b, owned, t), key);
    }
  }

  /** The bucket of `key`, if there is one. */
  function Bucket(buckets: seq<Group>, key: string): Option<Group> {
    Find(buckets, key)
  }

  lemma {:induction false} FindFirstPass(groups: seq<Group>, buckets: seq<Group>, owned: set<Pair>, t: Tracking,
                                         key: string)
    requires DistinctKeys(buckets)
    ensures Find(FirstPass(groups, buckets, owned, t), key) ==
            match Bucket(buckets, key)
            case None => Find(groups, key)
            case Some(b) => Some(MergeFound(Find(groups, key), b, owned, t))
  {
    if buckets != [] {
      var n := |buckets| - 1;
      var init, b := buckets[..n], buckets[n];
      FindFirstPass(groups, init, owned, t, key);
      FindMergeInto(FirstPass(groups, init, owned, t), b, owned, t, key);
      assert Lower(b.name) == key ==> Bucket(init, key).None?;
    }
  }

  lemma FindInKeys(buckets: seq<Group>, key: string)
    ensures Bucket(buckets, key).Some? <==> key in Keys(buckets)
    ensures Bucket(buckets, key).Some? ==> Lower(Bucket(buckets, key).value.name) == key && Bucket(buckets, key).value in buckets
  {
    if b :| b in buckets && Lower(b.name) == key {
      FindMember(buckets, b);
    }
  }

  lemma {:induction false} FindMember(buckets: seq<Group>, b: Group)
    requires b in buckets
    ensures IndexOf(buckets, Lower(b.name)) >= 0
  {
    var n := |buckets| - 1;
    if Lower(buckets[n].name) != Lower(b.name) {
      assert b in buckets[..n];
      FindMember(buckets[..n], b);
    }
  }

  // ---- dropping pairs --------------------------------------------------------------------------

  ghost function Gone(pairs: seq<Pair>, p: Pair, t: Tracking): set<string> {
    if p in pairs then Tracked(t, p) else {}
  }

  /** `g` without `allow` on its two allow lists and without `block` on its two block lists. */
  ghost function DropBoth(g: Group, allow: set<string>, block: set<string>): Group {
    g.(allowed := Without(g.allowed, allow), allowedRegex := Without(g.allowedRegex, allow),
       blocked := Without(g.blocked, block), blockedRegex := Without(g.blockedRegex, block))
  }

  ghost function Dropped(g: Group, key: string, pairs: seq<Pair>, t: Tracking): Group {
    DropBoth(g, Gone(pairs, Pair(key, Allow), t), Gone(pairs, Pair(key, Block), t))
  }

  lemma WithoutNothing(s: seq<string>)
    ensures Without(s, {}) == s
  {
    WithoutDisjoint(s, {});
  }

  lemma DropNothing(g: Group, a: Action)
    ensures DropSide(g, a, {}) == g
  {
    WithoutNothing(g.List(a, Exact));
    WithoutNothing(g.List(a, Regex));
  }

  lemma DropBothNothing(g: Group)
    ensures DropBoth(g, {}, {}) == g
  {
    WithoutNothing(g.allowed);
    WithoutNothing(g.allowedRegex);
    WithoutNothing(g.blocked);
    WithoutNothing(g.blockedRegex);
  }

  lemma DropBothThenSide(g: Group, allow: set<string>, block: set<string>, a: Action, drop: set<string>)
    requires match a case Allow => allow <= drop case Block => block <= drop
    ensures DropSide(DropBoth(g, allow, block), a, drop) ==
            match a case Allow => DropBoth(g, drop, block) case Block => DropBoth(g, allow, drop)
  {
    match a
    case Allow =>
      WithoutTwice(g.allowed, allow, drop);
      WithoutTwice(g.allowedRegex, allow, drop);
    case Block =>
      WithoutTwice(g.blocked, block, drop);
      WithoutTwice(g.blockedRegex, block, drop);
  }

  lemma FindDropFrom(groups: seq<Group>, p: Pair, t: Tracking, key: string)
    ensures Find(DropFrom(groups, p, t), key) ==
            match Find(groups, key)
            case None => None
            case Some(g) => Some(if p.key == key then DropSide(g, p.action, Tracked(t, p)) else g)
  {
    var i := IndexOf(groups, p.key);
    if Tracked(t, p) == {} {
      if i >= 0 {
        DropNothing(groups[i], p.action);
      }
    } else if i >= 0 {
      IndexOfUpdate(groups, i, DropSide(groups[i], p.action, Tracked(t, p)), key);
    }
  }

  lemma GoneNext(init: seq<Pair>, p: Pair, q: Pair, t: Tracking)
    ensures Gone(init + [p], q, t) == if q == p then Tracked(t, p) else Gone(init, q, t)
  {
    InAppend(init, p, q);
  }

  lemma DroppedNext(g: Group, key: string, init: seq<Pair>, p: Pair, t: Tracking)
    ensures Dropped(g, key, init + [p], t) ==
            if p.key == key then DropSide(Dropped(g, key, init, t), p.action, Tracked(t, p)) else Dropped(g, key, init, t)
  {
    GoneNext(init, p, Pair(key, Allow), t);
    GoneNext(init, p, Pair(key, Block), t);
    if p.key == key {
      DropBothThenSide(g, Gone(init, Pair(key, Allow), t), Gone(init, Pair(key, Block), t), p.action, Tracked(t, p));
    }
  }

  lemma {:induction false} FindDropAll(groups: seq<Group>, pairs: seq<Pair>, t: Tracking, key: string)
    ensures Find(DropAll(groups, pairs, t), key) ==
            match Find(groups, key)
            case None => None
            case Some(g) => Some(Dropped(g, key, pairs, t))
  {
    if pairs == [] {
      if Find(groups, key).Some? {
        DropBothNothing(Find(groups, key).value);
      }
    } else {
      var n := |pairs| - 1;
      FindDropAll(groups, pairs[..n], t, key);
      FindDropFrom(DropAll(groups, pairs[..n], t), pairs[n], t, key);
      InitLast(pairs);
      if Find(groups, key).Some? {
        DroppedNext(Find(groups, key).value, key, pairs[..n], pairs[n], t);
      }
    }
  }

  // ---- the one-line specification ----------------------------------------------------------------

  /** The old list of a group that may not exist yet. */
  function OldList(g: Option<Group>, a: Action, m: MatchType): seq<string> {
    match g
    case None => []
    case Some(g) => g.List(a, m)
  }

  /** What the library materialises for one list; nothing for a name without a bucket. */
  function Materialized(buckets: seq<Group>, key: string, a: Action, m: MatchType): seq<string> {
    OldList(Bucket(buckets, key), a, m)
  }

  /** Materialised values come from bindings, so an unowned pair has none. Lists of one bucket hold no duplicates. */
  ghost predicate BucketsFit(buckets: seq<Group>, owned: seq<Pair>) {
    && DistinctKeys(buckets)
    && (forall b, a, m :: b in buckets && Pair(Lower(b.name), a) !in owned ==> b.List(a, m) == [])
    && (forall b, a, m :: b in buckets ==> NoDuplicates(b.List(a, m)))
  }

  ghost predicate ListsPairs(trackedPairs: seq<Pair>, t: Tracking) {
    forall p :: p in trackedPairs <==> p in t
  }

  /** The list that the three passes compute, as one expression. */
  ghost function NextList(before: Option<Group>, bucket: Option<Group>, owned: bool, tracked: set<string>, a: Action,
                          m: MatchType): seq<string>
  {
    match bucket
    case None => Without(OldList(before, a, m), tracked)
    case Some(b) =>
      if owned then (if before.None? then b.List(a, m) else Dedup(Without(OldList(before, a, m), tracked) + b.List(a, m)))
      else Without(if before.None? then [] else Dedup(OldList(before, a, m)), tracked)
  }

  ghost function ListAfter(groups: seq<Group>, buckets: seq<Group>, owned: seq<Pair>, t: Tracking, key: string,
                           a: Action, m: MatchType): seq<string>
  {
    NextList(Find(groups, key), Bucket(buckets, key), Pair(key, a) in owned, Tracked(t, Pair(key, a)), a, m)
  }

  lemma FirstPassList(groups: seq<Group>, buckets: seq<Group>, owned: seq<Pair>, t: Tracking, key: string, a: Action,
                      m: MatchType)
    requires BucketsFit(buckets, owned)
    ensures var first := FirstPass(groups, buckets, ToSet(owned), t);
            && (Find(first, key).Some? <==> Find(groups, key).Some? || key in Keys(buckets))
            && OldList(Find(first, key), a, m) ==
               match Bucket(buckets, key)
               case None => OldList(Find(groups, key), a, m)
               case Some(b) =>
                 if Find(groups, key).None? then b.List(a, m)
                 else MergeList(OldList(Find(groups, key), a, m), Pair(key, a) in owned, Tracked(t, Pair(key, a)), b.List(a, m))
  {
    FindFirstPass(groups, buckets, ToSet(owned), t, key);
    FindInKeys(buckets, key);
  }

  lemma DroppedList(groups: seq<Group>, pairs: seq<Pair>, t: Tracking, key: string, a: Action, m: MatchType)
    ensures var r := DropAll(groups, pairs, t);
            && (Find(r, key).Some? <==> Find(groups, key).Some?)
            && OldList(Find(r, key), a, m) == Without(OldList(Find(groups, key), a, m), Gone(pairs, Pair(key, a), t))
  {
    FindDropAll(groups, pairs, t, key);
  }

  /** The list after the first pass. */
  ghost function FirstList(before: Option<Group>, bucket: Option<Group>, owned: bool, tracked: set<string>, a: Action,
                           m: MatchType): seq<string>
  {
    match bucket
    case None => OldList(before, a, m)
    case Some(b) =>
      if before.None? then b.List(a, m) else MergeList(OldList(before, a, m), owned, tracked, b.List(a, m))
  }

  lemma ThreeStages(before: Option<Group>, bucket: Option<Group>, owned: bool, tracked: set<string>, a: Action,
                    m: MatchType, gone2: set<string>, gone3: set<string>)
    requires !owned && bucket.Some? ==> bucket.value.List(a, m) == []
    requires gone2 == if owned && bucket.None? then tracked else {}
    requires gone3 == if owned then {} else tracked
    ensures Without(Without(FirstList(before, bucket, owned, tracked, a, m), gone2), gone3) ==
            NextList(before, bucket, owned, tracked, a, m)
  {
    var list, first := OldList(before, a, m), FirstList(before, bucket, owned, tracked, a, m);
    assert list + [] == list;
    WithoutNothing(first);
    WithoutNothing(Without(first, gone2));
  }

  lemma GonePairs(buckets: seq<Group>, owned: seq<Pair>, t: Tracking, trackedPairs: seq<Pair>, p: Pair)
    requires ListsPairs(trackedPairs, t)
    ensures Gone(Unprocessed(owned, Keys(buckets)), p, t) ==
            if p in owned && Bucket(buckets, p.key).None? then Tracked(t, p) else {}
    ensures Gone(Unbound(trackedPairs, ToSet(owned)), p, t) == if p in owned then {} else Tracked(t, p)
  {
    FindInKeys(buckets, p.key);
  }

  lemma UnownedListEmpty(buckets: seq<Group>, owned: seq<Pair>, key: string, a: Action, m: MatchType)
    requires BucketsFit(buckets, owned)
    ensures Pair(key, a) !in owned ==> Materialized(buckets, key, a, m) == []
  {
    FindInKeys(buckets, key);
  }

  /** The three passes compute `NextList` for every list of every group name, and create exactly the groups that
      have something materialised. */
  lemma PassesComputeNextList(groups: seq<Group>, buckets: seq<Group>, owned: seq<Pair>, t: Tracking,
                              trackedPairs: seq<Pair>, key: string, a: Action, m: MatchType)
    requires BucketsFit(buckets, owned) && ListsPairs(trackedPairs, t)
    ensures var r := ApplyToGroups(groups, buckets, owned, t, trackedPairs);
            && (Find(r, key).Some? <==> Find(groups, key).Some? || key in Keys(buckets))
            && OldList(Find(r, key), a, m) == ListAfter(groups, buckets, owned, t, key, a, m)
  {
    var p := Pair(key, a);
    var first := FirstPass(groups, buckets, ToSet(owned), t);
    var pairs2, pairs3 := Unprocessed(owned, Keys(buckets)), Unbound(trackedPairs, ToSet(owned));
    var second := DropAll(first, pairs2, t);
    FirstPassList(groups, buckets, owned, t, key, a, m);
    DroppedList(first, pairs2, t, key, a, m);
    DroppedList(second, pairs3, t, key, a, m);
    GonePairs(buckets, owned, t, trackedPairs, p);
    UnownedListEmpty(buckets, owned, key, a, m);
    ThreeStages(Find(groups, key), Bucket(buckets, key), p in owned, Tracked(t, p), a, m,
                Gone(pairs2, p, t), Gone(pairs3, p, t));
  }

  /** One line: as sets, new = (old minus tracked) plus materialised. */
  lemma NewListIsOldMinusTrackedPlusMaterialized(groups: seq<Group>, buckets: seq<Group>, owned: seq<Pair>, t: Tracking,
                                                 trackedPairs: seq<Pair>, key: string, a: Action, m: MatchType)
    requires BucketsFit(buckets, owned) && ListsPairs(trackedPairs, t)
    ensures ToSet(OldList(Find(ApplyToGroups(groups, buckets, owned, t, trackedPairs), key), a, m)) ==
            (ToSet(OldList(Find(groups, key), a, m)) - Tracked(t, Pair(key, a))) + ToSet(Materialized(buckets, key, a, m))
  {
    PassesComputeNextList(groups, buckets, owned, t, trackedPairs, key, a, m);
    FindInKeys(buckets, key);
  }
}
